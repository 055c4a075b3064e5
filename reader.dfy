/**
  The response reader of src/sim800/mod.rs: a loop that reads the serial
  port one byte at a time, gathers bytes into `line` until a line feed,
  and feeds each completed line (unless it ends in a doubled carriage
  return, as the modem's command echo does) to the parser through the
  pending `text`. Every parsed response is sent on to the command side;
  the channel is modelled as the sequence `emitted`.
*/
module Reader {

  import opened Base
  import opened Responses
  import opened Parser
  import Codes
  import ParseFacts

  const LineFeed: uint8 := 10

  /** A byte read from the port, widened to the character with the same code (Latin-1). */
  function Latin1(b: uint8): (c: char)
    ensures c as int == b as int
  {
    (b as int) as char
  }

  /** The characters that a run of bytes contributes to `line`. */
  function Chars(bytes: seq<uint8>): (s: string)
    ensures |s| == |bytes|
    ensures forall k :: 0 <= k < |bytes| ==> s[k] as int == bytes[k] as int
  {
    if bytes == [] then [] else [Latin1(bytes[0])] + Chars(bytes[1..])
  }

  predicate EndsWithDoubleCr(line: string) {
    |line| >= 2 && line[|line| - 2] == '\r' && line[|line| - 1] == '\r'
  }

  predicate NoLineFeed(line: string) {
    forall k :: 0 <= k < |line| ==> line[k] != '\n'
  }

  predicate NoLineFeedByte(bytes: seq<uint8>) {
    forall k :: 0 <= k < |bytes| ==> bytes[k] != LineFeed
  }

  /**
    The reader's state: the line being gathered, the text waiting for the
    rest of a frame, the responses sent so far, and whether the reader
    died on a code the tables do not know.
  */
  datatype State = State(line: string, text: string, emitted: seq<Response>, panicked: bool)

  const Initial := State([], [], [], false)

  /** One byte of input, as one round of the loop handles it. */
  function Next(parse: string -> ParseResult, s: State, b: uint8): (t: State)
    ensures s.panicked ==> t == s
    ensures s.emitted <= t.emitted && |t.emitted| <= |s.emitted| + 1
    ensures t.panicked && !s.panicked ==> b == LineFeed && t.emitted == s.emitted
    ensures !t.panicked && b == LineFeed ==> t.line == []
  {
    if s.panicked then s
    else if b != LineFeed then s.(line := s.line + [Latin1(b)])
    else if EndsWithDoubleCr(s.line) then s.(line := [])
    else Settle(s, s.text + s.line, parse(s.text + s.line))
  }

  /** The state after the completed line, appended to the pending text, is parsed with result `p`. */
  function Settle(s: State, text: string, p: ParseResult): (t: State)
    ensures t.panicked <==> p.ProtocolViolation?
    ensures t.emitted == s.emitted + (if p.Success? then [p.response] else [])
    ensures !t.panicked ==> t.line == []
    ensures p.Malformed? ==> t.text == []
  {
    match p
    case Success(response, tail) => State([], tail, s.emitted + [response], false)
    case Incomplete => State([], text, s.emitted, false)
    case Malformed => State([], [], s.emitted, false)
    case ProtocolViolation => s.(text := text, panicked := true)
  }

  /** A run of bytes, handled one after the other. */
  function Feed(parse: string -> ParseResult, s: State, bytes: seq<uint8>): (t: State)
    ensures |t.emitted| <= |s.emitted| + |bytes|
    decreases |bytes|
  {
    if bytes == [] then s else Feed(parse, Next(parse, s, bytes[0]), bytes[1..])
  }

  /** What one call of the port's `read` gives: a byte, zero bytes (the port closed), or an error. */
  datatype ReadResult = Byte(value: uint8) | EndOfStream | ReadFailed

  /**
    How the loop ends: a zero-byte read, a read error, a panic, or (the
    reads given so far being used up) still waiting for input.
  */
  datatype Exit = Closed | ReadError | Panic | Waiting

  datatype Finish = Finish(state: State, exit: Exit)

  /** The loop over a sequence of reads. */
  function RunFrom(parse: string -> ParseResult, s: State, input: seq<ReadResult>): (f: Finish)
    ensures f.exit == Panic <==> f.state.panicked
    ensures f.exit == Waiting ==> forall k :: 0 <= k < |input| ==> input[k].Byte?
    ensures s.emitted <= f.state.emitted
    decreases |input|
  {
    if s.panicked then Finish(s, Panic)
    else if input == [] then Finish(s, Waiting)
    else
      match input[0]
      case EndOfStream => Finish(s, Closed)
      case ReadFailed => Finish(s, ReadError)
      case Byte(b) => RunFrom(parse, Next(parse, s, b), input[1..])
  }

  /** The reads that deliver a run of bytes. */
  function Bytes(bytes: seq<uint8>): (input: seq<ReadResult>)
    ensures |input| == |bytes|
    ensures forall k :: 0 <= k < |bytes| ==> input[k] == Byte(bytes[k])
  {
    if bytes == [] then [] else [Byte(bytes[0])] + Bytes(bytes[1..])
  }

  /** The reader thread's state, updated in place. */
  class ResponseReader {
    var line: string
    var text: string
    var emitted: seq<Response>
    var panicked: bool

    function Current(): State
      reads this
    {
      State(line, text, emitted, panicked)
    }

    constructor ()
      ensures Current() == Initial
    {
      line, text, emitted, panicked := [], [], [], false;
    }

    /** One round of the loop, for a read that gave the byte `b`. */
    method Step(b: uint8)
      modifies this
      ensures Current() == Next(Parse, old(Current()), b)
    {
      if panicked {
        return;
      }
      if b != LineFeed {
        line := line + [Latin1(b)];
      } else if EndsWithDoubleCr(line) {
        line := [];
      } else {
        CompleteLine(Parse);
      }
    }

    /** A line feed ended a line that is not an echo: the line goes to the parser `parse`. */
    method CompleteLine(parse: string -> ParseResult)
      requires !panicked
      modifies this
      ensures Current() == Settle(old(Current()), old(text + line), parse(old(text + line)))
    {
      var pending := text + line;
      var result := parse(pending);
      match result {
        case Success(response, tail) =>
          line, text, emitted := [], tail, emitted + [response];
        case Incomplete =>
          line, text := [], pending;
        case Malformed =>
          line, text := [], [];
        case ProtocolViolation =>
          text, panicked := pending, true;
      }
    }

    /** The loop, over the reads the port gives. */
    method Run(input: seq<ReadResult>) returns (exit: Exit)
      modifies this
      ensures Finish(Current(), exit) == RunFrom(Parse, old(Current()), input)
    {
      var i := 0;
      while i < |input|
        invariant 0 <= i <= |input|
        invariant RunFrom(Parse, Current(), input[i..]) == RunFrom(Parse, old(Current()), input)
        decreases |input| - i
      {
        if panicked {
          return Panic;
        }
        assert input[i..][1..] == input[i + 1..];
        match input[i] {
          case EndOfStream =>
            return Closed;
          case ReadFailed =>
            return ReadError;
          case Byte(b) =>
            Step(b);
        }
        i := i + 1;
      }
      if panicked {
        return Panic;
      }
      return Waiting;
    }
  }

  /** A byte other than a line feed is appended to `line` unchanged; nothing else changes. */
  lemma OtherByteExtendsLine(parse: string -> ParseResult, s: State, b: uint8)
    requires !s.panicked && b != LineFeed
    ensures Next(parse, s, b) == s.(line := s.line + [Latin1(b)])
    ensures Latin1(b) != '\n'
  {
  }

  /** Once a line feed is handled (and the reader survives it), `line` is empty. */
  lemma LineFeedClearsLine(parse: string -> ParseResult, s: State)
    requires !Next(parse, s, LineFeed).panicked
    ensures Next(parse, s, LineFeed).line == []
  {
  }

  /** A completed line ending in a doubled carriage return is dropped: no text, no response. */
  lemma EchoLineDropped(parse: string -> ParseResult, s: State)
    requires !s.panicked && EndsWithDoubleCr(s.line)
    ensures Next(parse, s, LineFeed) == s.(line := [])
  {
  }

  /**
    Any other completed line is appended to `text`, which is parsed. A
    response means exactly one more emitted value and the tail left as
    `text`; an incomplete frame keeps the text and emits nothing; a
    malformed one empties `text`, dropping whatever was pending; a code
    the tables do not know stops the reader.
  */
  lemma LineCompleted(parse: string -> ParseResult, s: State)
    requires !s.panicked && !EndsWithDoubleCr(s.line)
    ensures var t := Next(parse, s, LineFeed); var p := parse(s.text + s.line);
      && (p.Success? ==> t == State([], p.tail, s.emitted + [p.response], false))
      && (p.Incomplete? ==> t == State([], s.text + s.line, s.emitted, false))
      && (p.Malformed? ==> t == State([], [], s.emitted, false))
      && (p.ProtocolViolation? <==> t.panicked)
  {
  }

  /** Handling a run of bytes is handling its parts one after the other. */
  lemma {:induction false} FeedConcat(parse: string -> ParseResult, s: State, a: seq<uint8>, b: seq<uint8>)
    ensures Feed(parse, s, a + b) == Feed(parse, Feed(parse, s, a), b)
    decreases |a|
  {
    if a == [] {
      assert a + b == b;
    } else {
      assert (a + b)[1..] == a[1..] + b;
      FeedConcat(parse, Next(parse, s, a[0]), a[1..], b);
    }
  }

  /**
    Responses are only ever added, at the end: whatever was emitted
    before a run of bytes is a prefix of what is emitted after it.
  */
  lemma {:induction false} EmittedGrows(parse: string -> ParseResult, s: State, bytes: seq<uint8>)
    ensures s.emitted <= Feed(parse, s, bytes).emitted
    ensures s.panicked ==> Feed(parse, s, bytes) == s
    decreases |bytes|
  {
    if bytes != [] {
      EmittedGrows(parse, Next(parse, s, bytes[0]), bytes[1..]);
    }
  }

  /** `line` never holds a line feed. */
  lemma {:induction false} LineHasNoLineFeed(parse: string -> ParseResult, s: State, bytes: seq<uint8>)
    requires NoLineFeed(s.line)
    ensures NoLineFeed(Feed(parse, s, bytes).line)
    decreases |bytes|
  {
    if bytes != [] {
      LineHasNoLineFeed(parse, Next(parse, s, bytes[0]), bytes[1..]);
    }
  }

  /** Bytes without a line feed only extend `line`. */
  lemma {:induction false} FeedWithinLine(parse: string -> ParseResult, s: State, bytes: seq<uint8>)
    requires !s.panicked && NoLineFeedByte(bytes)
    ensures Feed(parse, s, bytes) == s.(line := s.line + Chars(bytes))
    decreases |bytes|
  {
    if bytes == [] {
      assert s.line + Chars(bytes) == s.line;
    } else {
      var t := Next(parse, s, bytes[0]);
      FeedWithinLine(parse, t, bytes[1..]);
      assert s.line + Chars(bytes) == t.line + Chars(bytes[1..]);
    }
  }

  /** A whole line, fed from an empty `line`, is handled as one completed line. */
  lemma FeedLine(parse: string -> ParseResult, s: State, bytes: seq<uint8>)
    requires !s.panicked && s.line == [] && NoLineFeedByte(bytes)
    ensures Feed(parse, s, bytes + [LineFeed]) == Next(parse, s.(line := Chars(bytes)), LineFeed)
  {
    FeedConcat(parse, s, bytes, [LineFeed]);
    FeedWithinLine(parse, s, bytes);
    assert [] + Chars(bytes) == Chars(bytes);
  }

  /** The loop stops at a zero-byte read and makes no read after it. */
  lemma {:induction false} ClosedStopsLoop(parse: string -> ParseResult, s: State, bytes: seq<uint8>, later: seq<ReadResult>)
    requires !Feed(parse, s, bytes).panicked
    ensures RunFrom(parse, s, Bytes(bytes) + [EndOfStream] + later) == Finish(Feed(parse, s, bytes), Closed)
    decreases |bytes|
  {
    EmittedGrows(parse, s, bytes);
    if bytes == [] {
      assert Bytes(bytes) + [EndOfStream] + later == [EndOfStream] + later;
    } else {
      assert (Bytes(bytes) + [EndOfStream] + later)[1..] == Bytes(bytes[1..]) + [EndOfStream] + later;
      ClosedStopsLoop(parse, Next(parse, s, bytes[0]), bytes[1..], later);
    }
  }

  /** Whether every character of `line` is one a single byte carries. */
  predicate IsLatin1(line: string) {
    forall k :: 0 <= k < |line| ==> line[k] as int < 0x100
  }

  /** The bytes that carry a line of Latin-1 characters. */
  function Encoded(line: string): (bytes: seq<uint8>)
    requires IsLatin1(line)
    ensures Chars(bytes) == line
    ensures forall k :: 0 <= k < |line| ==> bytes[k] as int == line[k] as int
  {
    if line == [] then [] else [line[0] as int as uint8] + Encoded(line[1..])
  }

  /** A line of text, fed as its bytes from an empty `line`, is handled as one completed line. */
  lemma FeedText(parse: string -> ParseResult, s: State, line: string)
    requires !s.panicked && s.line == [] && NoLineFeed(line) && IsLatin1(line)
    ensures Feed(parse, s, Encoded(line) + [LineFeed]) == Next(parse, s.(line := line), LineFeed)
  {
    FeedLine(parse, s, Encoded(line));
  }

  predicate IsLine(line: string) {
    NoLineFeed(line) && IsLatin1(line)
  }

  /** The bytes of a sequence of lines, each followed by a line feed. */
  function Joined(lines: seq<string>): seq<uint8>
    requires forall line | line in lines :: IsLine(line)
  {
    if lines == [] then [] else assert lines[0] in lines && IsLine(lines[0]); Encoded(lines[0]) + [LineFeed] + Joined(lines[1..])
  }

  /** Completed lines, handled one after the other from an empty `line`. */
  function ReadLines(parse: string -> ParseResult, s: State, lines: seq<string>): (t: State)
    ensures s.emitted <= t.emitted && |t.emitted| <= |s.emitted| + |lines|
    ensures lines != [] && !t.panicked ==> t.line == []
    decreases |lines|
  {
    if lines == [] || s.panicked then s
    else ReadLines(parse, Next(parse, s.(line := lines[0]), LineFeed), lines[1..])
  }

  /** Feeding the bytes of whole lines is completing those lines in turn. */
  lemma {:induction false} FeedLines(parse: string -> ParseResult, s: State, lines: seq<string>)
    requires s.panicked || s.line == []
    requires forall line | line in lines :: IsLine(line)
    ensures Feed(parse, s, Joined(lines)) == ReadLines(parse, s, lines)
    decreases |lines|
  {
    if lines != [] {
      assert lines[0] in lines;
      var rest := Joined(lines[1..]);
      if s.panicked {
        EmittedGrows(parse, s, Joined(lines));
      } else {
        FeedConcat(parse, s, Encoded(lines[0]) + [LineFeed], rest);
        FeedText(parse, s, lines[0]);
        var t := Next(parse, s.(line := lines[0]), LineFeed);
        if !t.panicked {
          LineFeedClearsLine(parse, s.(line := lines[0]));
        }
        FeedLines(parse, t, lines[1..]);
      }
    }
  }

  /** The four lines of the reply to a registration query, each on its own. */
  lemma ReplySteps(parse: string -> ParseResult, s: State, status: Response)
    requires !s.panicked && s.line == [] && s.text == []
    requires parse("\r") == Success(Empty, [])
    requires parse("+CREG: 0,1\r") == Incomplete
    requires parse("+CREG: 0,1\r\r") == Success(status, [])
    requires parse("OK\r") == Success(Ok, [])
    ensures Next(parse, s.(line := "\r"), LineFeed) == State([], [], s.emitted + [Empty], false)
    ensures Next(parse, State("+CREG: 0,1\r", [], s.emitted + [Empty], false), LineFeed)
         == State([], "+CREG: 0,1\r", s.emitted + [Empty], false)
    ensures Next(parse, State("\r", "+CREG: 0,1\r", s.emitted + [Empty], false), LineFeed)
         == State([], [], s.emitted + [Empty, status], false)
    ensures Next(parse, State("OK\r", [], s.emitted + [Empty, status], false), LineFeed)
         == State([], [], s.emitted + [Empty, status, Ok], false)
  {
    assert [] + "\r" == "\r" && [] + "+CREG: 0,1\r" == "+CREG: 0,1\r" && [] + "OK\r" == "OK\r";
    assert "+CREG: 0,1\r" + "\r" == "+CREG: 0,1\r\r";
    assert !EndsWithDoubleCr("\r") && !EndsWithDoubleCr("+CREG: 0,1\r") && !EndsWithDoubleCr("OK\r");
    assert s.emitted + [Empty] + [status] == s.emitted + [Empty, status];
    assert s.emitted + [Empty, status] + [Ok] == s.emitted + [Empty, status, Ok];
  }

  /**
    How the reader takes the reply to a registration query, for any
    parser that leaves the status line pending until its frame is closed
    by the blank line after it.
  */
  lemma {:induction false} ReplyLines(parse: string -> ParseResult, s: State, lines: seq<string>, status: Response)
    requires lines == ["\r", "+CREG: 0,1\r", "\r", "OK\r"]
    requires !s.panicked && s.line == [] && s.text == []
    requires parse("\r") == Success(Empty, [])
    requires parse("+CREG: 0,1\r") == Incomplete
    requires parse("+CREG: 0,1\r\r") == Success(status, [])
    requires parse("OK\r") == Success(Ok, [])
    ensures ReadLines(parse, s, lines) == State([], [], s.emitted + [Empty, status, Ok], false)
  {
    var s1 := State([], [], s.emitted + [Empty], false);
    var s2 := State([], "+CREG: 0,1\r", s.emitted + [Empty], false);
    var s3 := State([], [], s.emitted + [Empty, status], false);
    var s4 := State([], [], s.emitted + [Empty, status, Ok], false);
    ReplySteps(parse, s, status);
    var l1 := lines[1..];
    var l2 := l1[1..];
    var l3 := l2[1..];
    assert lines[0] == "\r" && l1[0] == "+CREG: 0,1\r" && l2[0] == "\r" && l3 == ["OK\r"];
    assert s1.(line := "+CREG: 0,1\r") == State("+CREG: 0,1\r", [], s.emitted + [Empty], false);
    assert s2.(line := "\r") == State("\r", "+CREG: 0,1\r", s.emitted + [Empty], false);
    assert s3.(line := "OK\r") == State("OK\r", [], s.emitted + [Empty, status], false);
    ReadLinesStep(parse, s3, l3, s4);
    assert l3[1..] == [];
    ReadLinesStep(parse, s2, l2, s3);
    ReadLinesStep(parse, s1, l1, s2);
    ReadLinesStep(parse, s, lines, s1);
  }

  /** A line that leaves the reader running is completed before the ones after it. */
  lemma ReadLinesStep(parse: string -> ParseResult, s: State, lines: seq<string>, t: State)
    requires !s.panicked && lines != [] && Next(parse, s.(line := lines[0]), LineFeed) == t
    ensures ReadLines(parse, s, lines) == ReadLines(parse, t, lines[1..])
  {
  }

  /**
    The modem's reply to a registration query, `\r\n+CREG: 0,1\r\n\r\nOK\r\n`:
    the leading blank line is an empty response, the status line waits
    for the blank line after it (its frame ends in a doubled carriage
    return that spans two lines), and the acknowledgement follows.
  */
  lemma ReadsRegistrationReply(s: State)
    requires !s.panicked && s.line == [] && s.text == []
    ensures ReadLines(Parse, s, ["\r", "+CREG: 0,1\r", "\r", "OK\r"])
         == State([], [], s.emitted + [Empty, NetworkRegistration(Codes.DisableRegistration, Codes.Registered, None, None), Ok], false)
  {
    ParseFacts.EmptyFrame("");
    ParseFacts.NetworkRegistrationSingleCr();
    ParseFacts.NetworkRegistrationFrame("");
    ParseFacts.OkFrame("");
    assert "\r" + "" == "\r" && "OK\r" + "" == "OK\r" && "+CREG: 0,1\r\r" + "" == "+CREG: 0,1\r\r";
    ReplyLines(Parse, s, ["\r", "+CREG: 0,1\r", "\r", "OK\r"], NetworkRegistration(Codes.DisableRegistration, Codes.Registered, None, None));
  }

  /** The same reply, fed to the reader as the bytes that arrive on the serial port. */
  lemma RegistrationReplyBytes(s: State, lines: seq<string>)
    requires lines == ["\r", "+CREG: 0,1\r", "\r", "OK\r"]
    requires !s.panicked && s.line == [] && s.text == []
    ensures forall line | line in lines :: IsLine(line)
    ensures Feed(Parse, s, Joined(lines))
         == State([], [], s.emitted + [Empty, NetworkRegistration(Codes.DisableRegistration, Codes.Registered, None, None), Ok], false)
  {
    assert forall line | line in lines :: IsLine(line);
    FeedLines(Parse, s, lines);
    ReadsRegistrationReply(s);
  }

  /**
    A line other than the blank one after a pending registration status
    line makes the whole text malformed: `text` is emptied, and neither
    the status line nor the acknowledgement that arrived is emitted.
  */
  lemma PendingFrameDropped(s: State)
    requires !s.panicked && s.line == [] && s.text == "+CREG: 0,1\r"
    ensures Next(Parse, s.(line := "OK\r"), LineFeed) == State([], [], s.emitted, false)
  {
    ParseFacts.InterruptedRegistration("OK\r");
  }

  /**
    The reader resynchronises after a malformed line: from an empty
    state, a completed line that parses as malformed is dropped with the
    text it would have joined, and an acknowledgement after it is emitted
    on its own.
  */
  lemma MalformedLineDropped(parse: string -> ParseResult, s: State, bad: string)
    requires !s.panicked && s.line == [] && s.text == []
    requires !EndsWithDoubleCr(bad) && parse(bad) == Malformed
    requires parse("OK\r") == Success(Ok, [])
    ensures ReadLines(parse, s, [bad, "OK\r"]) == State([], [], s.emitted + [Ok], false)
  {
    var t := State([], [], s.emitted, false);
    assert s.text + bad == bad;
    LineCompleted(parse, s.(line := bad));
    ReadLinesStep(parse, s, [bad, "OK\r"], t);
    assert t.text + "OK\r" == "OK\r";
    var u := State([], [], s.emitted + [Ok], false);
    LineCompleted(parse, t.(line := "OK\r"));
    assert [bad, "OK\r"][1..] == ["OK\r"];
    ReadLinesStep(parse, t, ["OK\r"], u);
    assert ["OK\r"][1..] == [];
  }

  /** The same resynchronisation for the module's parser, fed as the bytes of the two lines. */
  lemma ResynchronisesAfterMalformed(s: State, bad: string)
    requires !s.panicked && s.line == [] && s.text == []
    requires IsLine(bad) && !EndsWithDoubleCr(bad) && Parse(bad) == Malformed
    ensures forall line | line in [bad, "OK\r"] :: IsLine(line)
    ensures Feed(Parse, s, Joined([bad, "OK\r"])) == State([], [], s.emitted + [Ok], false)
  {
    assert IsLine("OK\r");
    assert forall line | line in [bad, "OK\r"] :: IsLine(line);
    FeedLines(Parse, s, [bad, "OK\r"]);
    ParseFacts.OkFrame("");
    assert "OK\r" + "" == "OK\r";
    MalformedLineDropped(Parse, s, bad);
  }
}
