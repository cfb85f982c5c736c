/**
 * The operator's side of `Controller::handleMessageSend`
 * (src/controller.cpp:189-206): the typed text is split at spaces and each
 * token must be a base-16 number no larger than 0xff.
 */
module Send {
  import opened Wrappers
  import opened Bytes
  import opened Strings

  /** A token accepted as one MIDI byte: `toUInt(&ok, 16)` succeeds and the value is at most 0xff. */
  function ByteToken(token: string): (r: Option<Byte>)
    ensures r.Some? <==> ToUIntBase16(token).Some? && ToUIntBase16(token).value <= 0xFF
    ensures r.Some? ==> r.value as int == ToUIntBase16(token).value
  {
    match ToUIntBase16(token)
    case None => None
    case Some(value) =>
      if value > 0xFF then None
      else Some(ToByte(value))
  }

  /**
   * The bytes the tokens stand for, in order, or the first token that
   * `read` does not take as a byte. The loop of handleMessageSend reads
   * tokens with `ByteToken`; the list logic holds for any reading, and is
   * stated once for all. Defined from the last token back, as the loop
   * extends its prefix.
   */
  function ParseTokens(tokens: seq<string>, read: string -> Option<Byte>): (r: Result<seq<Byte>, string>)
    ensures r.Success? ==> |r.value| == |tokens|
    ensures r.Failure? ==> r.error in tokens && read(r.error).None?
  {
    if |tokens| == 0 then Success([])
    else
      match ParseTokens(tokens[..|tokens| - 1], read)
      case Failure(token) => Failure(token)
      case Success(bytes) =>
        match read(tokens[|tokens| - 1])
        case None => Failure(tokens[|tokens| - 1])
        case Some(b) => Success(bytes + [b])
  }

  /** The message the operator's text stands for, or the offending token. */
  function OperatorBytes(text: string): (r: Result<seq<Byte>, string>)
    ensures r.Success? ==> |r.value| == |Split(text)|
    ensures r.Failure? ==> r.error in Split(text) && IsWord(r.error) && ByteToken(r.error).None?
  {
    ParseTokens(Split(text), ByteToken)
  }

  /**
   * The tokens are accepted exactly when each one is read as a byte, and
   * then they give one byte per token, in order.
   */
  lemma {:induction false} ParseTokensAccepts(tokens: seq<string>, read: string -> Option<Byte>)
    ensures ParseTokens(tokens, read).Success? <==> forall i :: 0 <= i < |tokens| ==> read(tokens[i]).Some?
    ensures ParseTokens(tokens, read).Success? ==>
      |ParseTokens(tokens, read).value| == |tokens|
      && forall i :: 0 <= i < |tokens| ==> read(tokens[i]) == Some(ParseTokens(tokens, read).value[i])
  {
    if |tokens| > 0 {
      var init := tokens[..|tokens| - 1];
      ParseTokensAccepts(init, read);
      assert forall i :: 0 <= i < |init| ==> init[i] == tokens[i];
    }
  }

  /** Reading one more token as a byte extends the bytes read so far by that byte. */
  lemma ParseTokensExtend(tokens: seq<string>, read: string -> Option<Byte>, i: nat, bytes: seq<Byte>, b: Byte)
    requires i < |tokens|
    requires ParseTokens(tokens[..i], read) == Success(bytes) && read(tokens[i]) == Some(b)
    ensures ParseTokens(tokens[..i + 1], read) == Success(bytes + [b])
  {
    assert tokens[..i + 1][..i] == tokens[..i];
  }

  /** The tokens are rejected at the first one that is not read as a byte, and that token is named. */
  lemma {:induction false} ParseTokensRejects(tokens: seq<string>, read: string -> Option<Byte>, i: nat)
    requires i < |tokens| && read(tokens[i]).None?
    requires forall j :: 0 <= j < i ==> read(tokens[j]).Some?
    ensures ParseTokens(tokens, read) == Failure(tokens[i])
  {
    var init := tokens[..|tokens| - 1];
    if i == |tokens| - 1 {
      ParseTokensAccepts(init, read);
    } else {
      ParseTokensRejects(init, read, i);
    }
  }

  /**
   * Typing the hex tokens of any byte sequence, separated by spaces, gives
   * back exactly that sequence.
   */
  lemma RetypedBytes(message: seq<Byte>)
    ensures OperatorBytes(Join(HexTokens(message))) == Success(message)
  {
    var tokens := HexTokens(message);
    forall i | 0 <= i < |tokens| ensures IsWord(tokens[i]) && ByteToken(tokens[i]) == Some(message[i]) {
      HexTokenHasNoSpace(message[i]);
      HexRoundTrip(message[i]);
      ValueDeterminesByte(ByteToken(tokens[i]).value, message[i]);
    }
    SplitJoin(tokens);
    ParseTokensAccepts(tokens, ByteToken);
    assert ParseTokens(tokens, ByteToken).value == message;
  }
  /** A token that `toUInt` reads as the value of a byte is accepted as that byte. */
  lemma ReadsAsByte(token: string, b: Byte)
    requires ToUIntBase16(token) == Some(b as int)
    ensures ByteToken(token) == Some(b)
  {
    ValueDeterminesByte(ByteToken(token).value, b);
  }

  /** "90 3c 40\n" splits into three tokens, the newline staying with the last. */
  lemma TypedNoteOnTokens()
    ensures Split("90 3c 40\n") == ["90", "3c", "40\n"]
  {
    assert "90 3c 40\n" == "90" + " " + ("3c" + " " + "40\n");
    SplitAtSpace("90", "3c" + " " + "40\n");
    SplitAtSpace("3c", "40\n");
    SplitOfWord("90");
    SplitOfWord("3c");
    SplitOfWord("40\n");
  }

  /** The two plain tokens of "90 3c 40\n" read as their bytes. */
  lemma TypedNoteOnPlainBytes()
    ensures ByteToken("90") == Some(0x90) && ByteToken("3c") == Some(0x3C)
  {
    TwoDigitToken("90");
    TwoDigitToken("3c");
    ReadsAsByte("90", 0x90);
    ReadsAsByte("3c", 0x3C);
  }

  /** Three tokens read as three bytes give those bytes, in order. */
  lemma ThreeTokens(read: string -> Option<Byte>, t0: string, t1: string, t2: string, b0: Byte, b1: Byte, b2: Byte)
    requires read(t0) == Some(b0) && read(t1) == Some(b1) && read(t2) == Some(b2)
    ensures ParseTokens([t0, t1, t2], read) == Success([b0, b1, b2])
  {
    var tokens := [t0, t1, t2];
    assert tokens[..0] == [] && tokens[..3] == tokens;
    var none: seq<Byte> := [];
    ParseTokensExtend(tokens, read, 0, none, b0);
    assert none + [b0] == [b0];
    ParseTokensExtend(tokens, read, 1, [b0], b1);
    assert [b0] + [b1] == [b0, b1];
    ParseTokensExtend(tokens, read, 2, [b0, b1], b2);
    assert [b0, b1] + [b2] == [b0, b1, b2];
  }

  /**
   * Typed text whose last token carries the newline of the text edit is
   * still sent: "90 3c 40\n" stands for Note On, note 60, velocity 64.
   */
  lemma TypedNoteOnExample()
    ensures OperatorBytes("90 3c 40\n") == Success([0x90, 0x3C, 0x40])
  {
    TypedNoteOnTokens();
    TypedNoteOnPlainBytes();
    TrailingNewlineIsIgnored();
    ReadsAsByte("40\n", 0x40);
    ThreeTokens(ByteToken, "90", "3c", "40\n", 0x90, 0x3C, 0x40);
  }
}
