/**
 * The message-handling part of class `Controller` (src/controller.h:31-78,
 * src/controller.cpp:165-496): the three fields parseMessage sets, the
 * methods that set them, and the effects of sending and receiving a message
 * (the engine's send, the rows added to the main view's log, the errors
 * shown to the operator).
 */
module Controllers {
  import opened Wrappers
  import opened Bytes
  import opened Strings
  import opened StatusTable
  import opened Classifier
  import opened Send

  /** A row of the main view's message log. */
  datatype LogRow = LogRow(timeStamp: nat, status: Status, data: Data, valid: bool)

  /** What showError reports on the send path. */
  datatype SendError =
    | NotHexByte(token: string)   // "'<token>' is not a valid hexadecimal MIDI byte"
    | NotMidiMessage              // "The given message is not a valid MIDI message."

  /**
   * An operator who types the hex tokens of a well-formed message, separated
   * by spaces, gets exactly that message back, and it classifies as valid,
   * which is the condition under which HandleMessageSend sends it.
   */
  lemma RetypedMessageIsValid(message: seq<Byte>)
    requires WellFormed(message)
    ensures OperatorBytes(Join(HexTokens(message))) == Success(message)
    ensures Classify(message).valid
  {
    RetypedBytes(message);
  }

  class Controller {
    var valid: bool
    var statusDescription: Status
    var dataDescription: Data

    /** The messages handed to the engine to send. */
    var sent: seq<seq<Byte>>
    /** The rows added for sent messages, one per sent message. */
    var sentLog: seq<LogRow>
    /** The rows added for received messages. */
    var receivedLog: seq<LogRow>
    /** The errors shown to the operator. */
    var errors: seq<SendError>

    /**
     * Only well-formed messages are sent, and the row logged for each
     * describes it as valid, with the descriptions of its classification.
     */
    ghost predicate Valid()
      reads this
    {
      && |sentLog| == |sent|
      && forall i :: 0 <= i < |sent| ==>
           WellFormed(sent[i]) && sentLog[i].valid
           && sentLog[i].status == Classify(sent[i]).status
           && sentLog[i].data == Classify(sent[i]).data
    }

    constructor ()
      ensures Valid()
      ensures sent == [] && sentLog == [] && receivedLog == [] && errors == []
    {
      sent, sentLog, receivedLog, errors := [], [], [], [];
    }

    /**
     * getGenericDataDescription: builds the list of hex tokens for bytes 1
     * through `lastIndex` (-1 standing for the last byte), adds the count,
     * and joins them with spaces.
     */
    method GenericDataDescription(message: seq<Byte>, lastIndex: int) returns (text: string)
      requires -1 <= lastIndex < |message|
      ensures text == GenericText(message, lastIndex)
    {
      var last := lastIndex;
      if last == -1 {
        last := |message| - 1;
      }
      var dataParts: seq<string> := [];
      var i := 1;
      while i <= last
        invariant 1 <= i <= if last >= 0 then last + 1 else 1
        invariant dataParts == HexTokens(DataRange(message, i - 1))
      {
        assert DataRange(message, i) == DataRange(message, i - 1) + [message[i]] by {
          if i > 1 {
            assert message[1..i + 1] == message[1..i] + [message[i]];
          }
        }
        dataParts := dataParts + [Hex2(message[i])];
        i := i + 1;
      }
      assert last >= 1 ==> i == last + 1;
      dataParts := dataParts + [CountText(last)];
      text := Join(dataParts);
    }

    /**
     * parseMessage: sets `valid`, `statusDescription` and `dataDescription`
     * to the classification of `message`, through the checks in order and
     * with an early return at the first that fails.
     */
    method ParseMessage(message: seq<Byte>)
      modifies this`valid, this`statusDescription, this`dataDescription
      ensures Parse(valid, statusDescription, dataDescription) == Classify(message)
    {
      var length := |message|;
      if length == 0 {
        dataDescription := Blank;
        statusDescription := EmptyMessage;
        valid := false;
        return;
      }

      var status := message[0];
      if status < 0x80 {
        var text := GenericDataDescription(message, -1);
        dataDescription := HexDump(text);
        statusDescription := InvalidStatus(status);
        valid := false;
        return;
      }

      var expectedLength := ExpectedLength(status);
      var lastDataIndex: int;
      if expectedLength == -1 {
        var text := GenericDataDescription(message, -1);
        dataDescription := HexDump(text);
        statusDescription := UndefinedStatus(status);
        valid := false;
        return;
      } else if expectedLength == 0 {
        if length == 1 {
          dataDescription := Blank;
          statusDescription := SysExNoData;
          valid := false;
          return;
        }
        if message[length - 1] != 0xF7 {
          var text := GenericDataDescription(message, -1);
          dataDescription := HexDump(text);
          statusDescription := SysExEndNotFound;
          valid := false;
          return;
        }
        lastDataIndex := length - 2;
      } else {
        if length != expectedLength {
          var text := GenericDataDescription(message, -1);
          dataDescription := HexDump(text);
          statusDescription := IncorrectLength(status);
          valid := false;
          return;
        }
        lastDataIndex := length - 1;
      }

      var i := 1;
      while i <= lastDataIndex
        invariant 1 <= i <= lastDataIndex + 1
        invariant forall j :: 1 <= j < i ==> IsData(message[j])
      {
        if message[i] >= 0x80 {
          var text := GenericDataDescription(message, -1);
          dataDescription := HexDump(text);
          statusDescription := InvalidData(status);
          valid := false;
          return;
        }
        i := i + 1;
      }

      valid := true;
      var described := Describe(message);
      statusDescription, dataDescription := described.0, described.1;
    }

    /**
     * The conversion loop of handleMessageSend: each space-separated token
     * is read with `toUInt(&ok, 16)` and must be at most 0xff; the first one
     * that is not ends the conversion and is returned.
     */
    method TextToBytes(text: string) returns (result: Result<seq<Byte>, string>)
      ensures result == OperatorBytes(text)
    {
      var bytes := Split(text);
      var count := |bytes|;
      var msg: seq<Byte> := [];
      var i := 0;
      while i < count
        invariant 0 <= i <= count
        invariant ParseTokens(bytes[..i], ByteToken) == Success(msg)
      {
        var byteStr := bytes[i];
        var value := ToUIntBase16(byteStr);
        if value.None? || value.value > 0xFF {
          assert ByteToken(byteStr).None?;
          ParseTokensAccepts(bytes[..i], ByteToken);
          assert forall j :: 0 <= j < i ==> bytes[..i][j] == bytes[j];
          ParseTokensRejects(bytes, ByteToken, i);
          return Failure(byteStr);
        }
        var b := ToByte(value.value);
        assert ByteToken(byteStr) == Some(b);
        ParseTokensExtend(bytes, ByteToken, i, msg, b);
        msg := msg + [b];
        i := i + 1;
      }
      assert bytes[..count] == bytes;
      return Success(msg);
    }

    /**
     * handleMessageSend: converts the operator's text to bytes, reporting
     * the first token that is not a byte; classifies the bytes; and sends
     * them only when they are a valid MIDI message. `sendTime` stands for the
     * time stamp the engine reports for the send.
     */
    method HandleMessageSend(text: string, sendTime: nat)
      requires Valid()
      modifies this
      ensures Valid()
      ensures receivedLog == old(receivedLog)
      ensures OperatorBytes(text).Failure? ==>
        && errors == old(errors) + [NotHexByte(OperatorBytes(text).error)]
        && sent == old(sent) && sentLog == old(sentLog)
        && valid == old(valid) && statusDescription == old(statusDescription)
        && dataDescription == old(dataDescription)
      ensures OperatorBytes(text).Success? ==>
        var message := OperatorBytes(text).value;
        && Parse(valid, statusDescription, dataDescription) == Classify(message)
        && (valid ==>
              && sent == old(sent) + [message]
              && sentLog == old(sentLog) + [LogRow(sendTime, statusDescription, dataDescription, true)]
              && errors == old(errors))
        && (!valid ==>
              sent == old(sent) && sentLog == old(sentLog) && errors == old(errors) + [NotMidiMessage])
    {
      var converted := TextToBytes(text);
      if converted.Failure? {
        errors := errors + [NotHexByte(converted.error)];
        return;
      }
      var msg := converted.value;

      ParseMessage(msg);
      if !valid {
        errors := errors + [NotMidiMessage];
        return;
      }

      sent := sent + [msg];
      sentLog := sentLog + [LogRow(sendTime, statusDescription, dataDescription, valid)];
    }

    /** handleReceivedMessage: classifies the message and adds its row to the log. */
    method HandleReceivedMessage(timeStamp: nat, message: seq<Byte>)
      requires Valid()
      modifies this
      ensures Valid()
      ensures Parse(valid, statusDescription, dataDescription) == Classify(message)
      ensures receivedLog == old(receivedLog) + [LogRow(timeStamp, statusDescription, dataDescription, valid)]
      ensures sent == old(sent) && sentLog == old(sentLog) && errors == old(errors)
    {
      ParseMessage(message);
      receivedLog := receivedLog + [LogRow(timeStamp, statusDescription, dataDescription, valid)];
    }
  }
}
