/**
  What `parse` promises its callers: decided results do not change when
  more data arrives, a frame cut short is incomplete, and the priority of
  the alternatives on the frames the device sends.
*/
module ParseFacts {

  import opened Base
  import opened Streaming
  import opened Codes
  import opened Calendar
  import opened Responses
  import opened Parser
  import opened ParserStability

  /** The result `parse` gives once `more` is appended to the buffer: a decided result carries over. */
  function Extended(r: ParseResult, more: string): ParseResult {
    if r.Success? then Success(r.response, r.tail + more) else r
  }

  /**
    Streaming: a result other than `Incomplete` is final. Appending data
    changes neither the response nor where its frame ends.
  */
  lemma ParseExtends(data: string, more: string)
    ensures !Parse(data).Incomplete? ==> Parse(data + more) == Extended(Parse(data), more)
  {
    var s := data + more;
    assert s[..|data|] == data;
    ResponseAtStable(s, |data|, 0);
    DecidedExtends(data, more, ResponseAt(data, 0), ResponseAt(s, 0));
  }

  /** `Decide` carries a stable outcome over from a buffer to its extension. */
  lemma DecidedExtends(data: string, more: string, onData: Outcome<Response>, onMore: Outcome<Response>)
    requires Framed(onData, data, 0) && Framed(onMore, data + more, 0) && Stable(onData, onMore)
    ensures !Decide(data, onData).Incomplete? ==> Decide(data + more, onMore) == Extended(Decide(data, onData), more)
  {
    if onData.Parsed? {
      assert (data + more)[onData.pos..] == data[onData.pos..] + more;
    }
  }

  /** Any strict prefix of a recognised frame, the empty one included, is `Incomplete`. */
  lemma FramePrefixIncomplete(data: string, k: nat)
    requires Parse(data).Success? && k < |data| - |Parse(data).tail|
    ensures Parse(data[..k]).Incomplete?
  {
    ResponseAtStable(data, k, 0);
  }

  /** `OK\r` is the final result `Ok`, whatever follows it. */
  lemma OkFrame(rest: string)
    ensures Parse("OK\r" + rest) == Success(Ok, rest)
  {
    var s := "OK\r" + rest;
    assert s[0..3] == "OK\r";
    TagMatches("OK\r", s, 0);
    assert s[3..] == rest;
  }

  /** A strict prefix of `OK\r` asks for more input. */
  lemma OkPrefixIncomplete(k: nat)
    requires k < 3
    ensures Parse("OK\r"[..k]) == Incomplete
  {
    OkFrame("");
    assert "OK\r" + "" == "OK\r";
    FramePrefixIncomplete("OK\r", k);
  }

  /** `RING\r` is the unsolicited `Ring`, whatever follows it. */
  lemma RingFrame(rest: string)
    ensures Parse("RING\r" + rest) == Success(Ring, rest)
  {
    var s := "RING\r" + rest;
    TagMismatchAt("OK\r", s, 0, 0);
    TagMismatchAt("ERROR\r", s, 0, 0);
    TagMismatchAt("+CME ERROR: ", s, 0, 0);
    TagMismatchAt("+CMS ERROR: ", s, 0, 0);
    TagMismatchAt("Call Ready\r", s, 0, 0);
    TagMismatchAt("SMS Ready\r", s, 0, 0);
    assert s[0..5] == "RING\r";
    TagMatches("RING\r", s, 0);
    assert s[5..] == rest;
  }

  /** A strict prefix of `RING\r` asks for more input. */
  lemma RingPrefixIncomplete(k: nat)
    requires k < 5
    ensures Parse("RING\r"[..k]) == Incomplete
  {
    RingFrame("");
    assert "RING\r" + "" == "RING\r";
    FramePrefixIncomplete("RING\r", k);
  }

  /** A lone carriage return matches none of the other alternatives and is `Empty`. */
  lemma EmptyFrame(rest: string)
    ensures Parse("\r" + rest) == Success(Empty, rest)
  {
    var s := "\r" + rest;
    TagMismatchAt("OK\r", s, 0, 0);
    TagMismatchAt("ERROR\r", s, 0, 0);
    TagMismatchAt("+CME ERROR: ", s, 0, 0);
    TagMismatchAt("+CMS ERROR: ", s, 0, 0);
    TagMismatchAt("Call Ready\r", s, 0, 0);
    TagMismatchAt("SMS Ready\r", s, 0, 0);
    TagMismatchAt("RING\r", s, 0, 0);
    TagMismatchAt("NO CARRIER\r", s, 0, 0);
    TagMismatchAt("+COPS: ", s, 0, 0);
    TagMismatchAt("+CREG: ", s, 0, 0);
    TagMismatchAt("+CPAS: ", s, 0, 0);
    TagMismatchAt("+CSQ: ", s, 0, 0);
    TagMismatchAt("+CBC: ", s, 0, 0);
    TagMismatchAt("+CMGL: ", s, 0, 0);
    TagMismatchAt("+CMGR: ", s, 0, 0);
    TagMismatchAt("+CMTI: ", s, 0, 0);
    TagMismatchAt("+CLCC: ", s, 0, 0);
    assert s[1..] == rest;
  }

  /**
    On an equipment error with a code, the code alternative of its source
    takes the code: a service error reaches it once the mobile tag has
    mismatched.
  */
  lemma CodeErrorAt(source: EquipmentErrorSource, s: string, end: nat, digits: string)
    requires 12 < end < |s| && s[..12] == ErrorPrefix(source) && s[end] == '\r' && s[12..end] == digits
    requires AllDigits(digits) && Decimal(digits) < 0x1_0000
    ensures Alternatives1(s, 0) == Parsed(Error(Code(source, Decimal(digits) as uint16)), end + 1)
  {
    assert s[0..12] == s[..12];
    TagMatches(ErrorPrefix(source), s, 0);
    if source == Service {
      TagMismatchAt("+CME ERROR: ", s, 0, 3);
    }
    UnsignedExact(0xFFFF, s, 12, end);
    TagMismatchAt("OK\r", s, 0, 0);
    TagMismatchAt("ERROR\r", s, 0, 0);
  }

  /** A buffer on which the first group of alternatives succeeds parses to that response. */
  lemma FirstGroupDecides(s: string, value: Response, pos: nat)
    requires Alternatives1(s, 0) == Parsed(value, pos)
    ensures Parse(s) == Success(value, s[pos..])
  {
  }

  /** Where the parts of an error line `<prefix><body>\r<rest>` sit. */
  lemma ErrorLineText(source: EquipmentErrorSource, body: string, rest: string)
    ensures var s := ErrorPrefix(source) + body + "\r" + rest;
      && |s| == 13 + |body| + |rest| && s[..12] == ErrorPrefix(source) && s[12..12 + |body|] == body
      && s[12 + |body|] == '\r' && s[13 + |body|..] == rest
      && forall k :: 0 <= k < |body| ==> s[12 + k] == body[k]
  {
    var line, tail := ErrorPrefix(source) + body, "\r" + rest;
    var s := line + tail;
    assert s == ErrorPrefix(source) + body + "\r" + rest;
    assert s[..|line|] == line && s[|line|..] == tail;
    assert line[..12] == ErrorPrefix(source) && line[12..] == body;
  }

  /** The first group of alternatives on `+CME ERROR: <digits>\r` or `+CMS ERROR: <digits>\r` followed by anything. */
  lemma CodeErrorLine(source: EquipmentErrorSource, digits: string, rest: string)
    requires digits != [] && AllDigits(digits) && Decimal(digits) < 0x1_0000
    ensures var s := ErrorPrefix(source) + digits + "\r" + rest;
      && Alternatives1(s, 0) == Parsed(Error(Code(source, Decimal(digits) as uint16)), 13 + |digits|)
      && s[13 + |digits|..] == rest
  {
    ErrorLineText(source, digits, rest);
    CodeErrorAt(source, ErrorPrefix(source) + digits + "\r" + rest, 12 + |digits|, digits);
  }

  /**
    An equipment or service error with a numeric code is a `Code` of its
    source holding the value of the digits, and never a `Message`: the
    code alternatives are tried first.
  */
  lemma EquipmentErrorCode(source: EquipmentErrorSource, digits: string, rest: string)
    requires digits != [] && AllDigits(digits) && Decimal(digits) < 0x1_0000
    ensures Parse(ErrorPrefix(source) + digits + "\r" + rest) == Success(Error(Code(source, Decimal(digits) as uint16)), rest)
  {
    CodeErrorLine(source, digits, rest);
    FirstGroupDecides(ErrorPrefix(source) + digits + "\r" + rest, Error(Code(source, Decimal(digits) as uint16)), 13 + |digits|);
  }

  /**
    On an error with a text: both code alternatives mismatch, and the
    message alternative of the error's source takes the text.
  */
  lemma MessageErrorAt(source: EquipmentErrorSource, s: string, end: nat)
    requires 12 < end < |s| && s[..12] == ErrorPrefix(source) && !IsDigit(s[12]) && s[end] == '\r'
    requires forall k :: 12 <= k < end ==> s[k] != '\r'
    ensures Alternatives1(s, 0) == Parsed(Error(Message(source, s[12..end])), end + 1)
  {
    assert s[0..12] == s[..12];
    TagMatches(ErrorPrefix(source), s, 0);
    if source == Mobile {
      TagMismatchAt("+CMS ERROR: ", s, 0, 3);
    } else {
      TagMismatchAt("+CME ERROR: ", s, 0, 3);
    }
    SpanExact(NotCarriageReturn, s, 12, end);
    TagMismatchAt("OK\r", s, 0, 0);
    TagMismatchAt("ERROR\r", s, 0, 0);
  }

  /** The first group of alternatives on an error line with a text, followed by anything. */
  lemma MessageErrorLine(source: EquipmentErrorSource, text: string, rest: string)
    requires text != [] && !IsDigit(text[0])
    requires forall k :: 0 <= k < |text| ==> text[k] != '\r'
    ensures var s := ErrorPrefix(source) + text + "\r" + rest;
      && Alternatives1(s, 0) == Parsed(Error(Message(source, text)), 13 + |text|)
      && s[13 + |text|..] == rest
  {
    ErrorLineText(source, text, rest);
    MessageErrorAt(source, ErrorPrefix(source) + text + "\r" + rest, 12 + |text|);
  }

  /** An equipment or service error whose text does not start with a digit is a `Message` of its source holding that text. */
  lemma EquipmentErrorMessage(source: EquipmentErrorSource, text: string, rest: string)
    requires text != [] && !IsDigit(text[0])
    requires forall k :: 0 <= k < |text| ==> text[k] != '\r'
    ensures Parse(ErrorPrefix(source) + text + "\r" + rest) == Success(Error(Message(source, text)), rest)
  {
    MessageErrorLine(source, text, rest);
    FirstGroupDecides(ErrorPrefix(source) + text + "\r" + rest, Error(Message(source, text)), 13 + |text|);
  }

  /** The `+CREG` alternative on `+CREG: 0,1\r\r`. */
  lemma NetworkRegistrationExampleAt(s: string)
    requires |s| >= 12 && s[..12] == "+CREG: 0,1\r\r"
    ensures ParseNetworkRegistration(s, 0) == Parsed(NetworkRegistration(DisableRegistration, Registered, None, None), 12)
  {
    assert s[0..7] == "+CREG: ";
    TagMatches("+CREG: ", s, 0);
    assert s[7..8] == "0" && s[9..10] == "1";
    assert "0"[..0] == [] && "1"[..0] == [];
    UnsignedExact(0xFF, s, 7, 8);
    UnsignedExact(0xFF, s, 9, 10);
    assert s[10..12] == "\r\r";
    TagMatches("\r\r", s, 10);
  }

  /** Every alternative before `+CREG` mismatches on a `+CREG` line. */
  lemma BeforeNetworkRegistration(s: string)
    requires |s| >= 3 && s[..3] == "+CR"
    ensures Alternatives1(s, 0) == Mismatch
    ensures Alt(ParseSmsReady(s, 0), Alt(ParseRing(s, 0), Alt(ParseNoCarrier(s, 0), ParseOperatorSelection(s, 0)))) == Mismatch
  {
    assert s[0] == '+' && s[2] == 'R';
    TagMismatchAt("OK\r", s, 0, 0);
    TagMismatchAt("ERROR\r", s, 0, 0);
    TagMismatchAt("+CME ERROR: ", s, 0, 2);
    TagMismatchAt("+CMS ERROR: ", s, 0, 2);
    TagMismatchAt("Call Ready\r", s, 0, 0);
    TagMismatchAt("SMS Ready\r", s, 0, 0);
    TagMismatchAt("RING\r", s, 0, 0);
    TagMismatchAt("NO CARRIER\r", s, 0, 0);
    TagMismatchAt("+COPS: ", s, 0, 2);
  }

  /**
    `+CREG: 0,1` closed by two carriage returns: registration reporting
    disabled, registered, no location.
  */
  lemma NetworkRegistrationFrame(rest: string)
    ensures Parse("+CREG: 0,1\r\r" + rest) == Success(NetworkRegistration(DisableRegistration, Registered, None, None), rest)
  {
    var s := "+CREG: 0,1\r\r" + rest;
    assert s[..12] == "+CREG: 0,1\r\r";
    assert s[..3] == "+CR";
    BeforeNetworkRegistration(s);
    NetworkRegistrationExampleAt(s);
    assert s[12..] == rest;
  }

  /** The `+CREG` line with a single carriage return is not yet a frame: it needs the second one. */
  lemma NetworkRegistrationSingleCr()
    ensures Parse("+CREG: 0,1\r") == Incomplete
  {
    NetworkRegistrationFrame("");
    var frame := "+CREG: 0,1\r\r" + "";
    assert frame[..11] == "+CREG: 0,1\r";
    FramePrefixIncomplete(frame, 11);
  }

  /** The `+CREG` alternative mismatches when its first carriage return is not followed by a second. */
  lemma NetworkRegistrationBroken(s: string)
    requires |s| >= 12 && s[..11] == "+CREG: 0,1\r" && s[11] != '\r'
    ensures ParseNetworkRegistration(s, 0) == Mismatch
  {
    assert s[0..7] == "+CREG: ";
    TagMatches("+CREG: ", s, 0);
    assert s[7..8] == "0" && s[9..10] == "1";
    assert "0"[..0] == [] && "1"[..0] == [];
    UnsignedExact(0xFF, s, 7, 8);
    UnsignedExact(0xFF, s, 9, 10);
    TagMismatchAt("\r\r", s, 10, 1);
  }

  /** Every alternative after `+CREG` mismatches on a `+CREG` line. */
  lemma AfterNetworkRegistration(s: string)
    requires |s| >= 3 && s[..3] == "+CR"
    ensures Alternatives3(s, 0) == Mismatch
    ensures Alternatives4(s, 0) == Mismatch
  {
    assert s[0] == '+' && s[2] == 'R';
    TagMismatchAt("+CPAS: ", s, 0, 2);
    TagMismatchAt("+CSQ: ", s, 0, 2);
    TagMismatchAt("+CBC: ", s, 0, 2);
    TagMismatchAt("+CMGL: ", s, 0, 2);
    TagMismatchAt("+CMGR: ", s, 0, 2);
    TagMismatchAt("+CMTI: ", s, 0, 2);
    TagMismatchAt("+CLCC: ", s, 0, 2);
    TagMismatchAt("\r", s, 0, 0);
  }

  /**
    A `+CREG` line followed by a line that does not start with a carriage
    return (so the doubled carriage return never comes) is malformed as a
    whole: no alternative accepts it.
  */
  lemma InterruptedRegistration(line: string)
    requires line != [] && line[0] != '\r'
    ensures Parse("+CREG: 0,1\r" + line) == Malformed
  {
    var s := "+CREG: 0,1\r" + line;
    assert s[..11] == "+CREG: 0,1\r" && s[11] == line[0];
    assert s[..3] == "+CR";
    BeforeNetworkRegistration(s);
    NetworkRegistrationBroken(s);
    AfterNetworkRegistration(s);
  }

  /** The `+CMTI` alternative on `+CMTI: "SM",3\r`. */
  lemma NewSmsExampleAt(s: string)
    requires |s| >= 14 && s[..14] == "+CMTI: \"SM\",3\r"
    ensures ParseNewSmsMessages(s, 0) == Parsed(NewSmsMessage(Sim, 3), 14)
  {
    assert s[0..7] == "+CMTI: ";
    TagMatches("+CMTI: ", s, 0);
    TagMismatchAt("\"\"", s, 7, 1);
    SpanExact(NotQuote, s, 8, 10);
    assert s[8..10] == "SM";
    assert s[12..13] == "3" && "3"[..0] == [];
    UnsignedExact(0xFFFF, s, 12, 13);
  }

  /** Every alternative before `+CMTI` mismatches on a `+CMTI` line. */
  lemma BeforeNewSms(s: string)
    requires |s| >= 4 && s[..4] == "+CMT"
    ensures Alternatives1(s, 0) == Mismatch && Alternatives2(s, 0) == Mismatch && Alternatives3(s, 0) == Mismatch
    ensures ParseReadSmsMessages(s, 0) == Mismatch
  {
    assert s[0] == '+' && s[2] == 'M' && s[3] == 'T';
    TagMismatchAt("OK\r", s, 0, 0);
    TagMismatchAt("ERROR\r", s, 0, 0);
    TagMismatchAt("+CME ERROR: ", s, 0, 3);
    TagMismatchAt("+CMS ERROR: ", s, 0, 3);
    TagMismatchAt("Call Ready\r", s, 0, 0);
    TagMismatchAt("SMS Ready\r", s, 0, 0);
    TagMismatchAt("RING\r", s, 0, 0);
    TagMismatchAt("NO CARRIER\r", s, 0, 0);
    TagMismatchAt("+COPS: ", s, 0, 2);
    TagMismatchAt("+CREG: ", s, 0, 2);
    TagMismatchAt("+CPAS: ", s, 0, 2);
    TagMismatchAt("+CSQ: ", s, 0, 2);
    TagMismatchAt("+CBC: ", s, 0, 2);
    TagMismatchAt("+CMGL: ", s, 0, 3);
    TagMismatchAt("+CMGR: ", s, 0, 3);
  }

  /**
    A new-message notice ends at its first carriage return: a second one
    is left in the tail, where it is a frame of its own.
  */
  lemma NewSmsFrame(rest: string)
    ensures Parse("+CMTI: \"SM\",3\r" + rest) == Success(NewSmsMessage(Sim, 3), rest)
  {
    var s := "+CMTI: \"SM\",3\r" + rest;
    assert s[..14] == "+CMTI: \"SM\",3\r";
    assert s[..4] == "+CMT";
    BeforeNewSms(s);
    NewSmsExampleAt(s);
    assert s[14..] == rest;
  }
}
