/**
  What `parse` returns for a buffer that starts with one of the status
  lines: the alternatives that come before and after its own all
  mismatch on its tag, so the line's own parser decides, and the reply is
  the response it decodes or a protocol violation for an unknown code.
  For the message listings the deciding lemmas turn what `ListSmsAt` and
  `ReadSmsAt` state about the line's own parser into the reply.
*/
module Replies {

  import opened Base
  import opened Streaming
  import opened Codes
  import opened Responses
  import opened Parser
  import opened FieldFacts
  import opened StatusLines

  // ---------------------------------------------------------------------
  // Routing

  /** On a line that starts with `+COPS:` every other alternative mismatches, so the operator selection parser decides. */
  lemma RouteOperatorSelection(s: string)
    requires |s| >= 7 && s[..7] == "+COPS: "
    ensures ResponseAt(s, 0) == ParseOperatorSelection(s, 0)
    ensures Parse(s) == Decide(s, ParseOperatorSelection(s, 0))
  {
    assert s[0] == '+' && s[2] == 'O';
    TagMismatchAt("OK\r", s, 0, 0);
    TagMismatchAt("ERROR\r", s, 0, 0);
    TagMismatchAt("+CME ERROR: ", s, 0, 2);
    TagMismatchAt("+CMS ERROR: ", s, 0, 2);
    TagMismatchAt("Call Ready\r", s, 0, 0);
    TagMismatchAt("SMS Ready\r", s, 0, 0);
    TagMismatchAt("RING\r", s, 0, 0);
    TagMismatchAt("NO CARRIER\r", s, 0, 0);
    TagMismatchAt("+CREG: ", s, 0, 2);
    TagMismatchAt("+CPAS: ", s, 0, 2);
    TagMismatchAt("+CSQ: ", s, 0, 2);
    TagMismatchAt("+CBC: ", s, 0, 2);
    TagMismatchAt("+CMGL: ", s, 0, 2);
    TagMismatchAt("+CMGR: ", s, 0, 2);
    TagMismatchAt("+CMTI: ", s, 0, 2);
    TagMismatchAt("+CLCC: ", s, 0, 2);
    assert Char('\r', s, 0) == Mismatch;
  }

  /** On a line that starts with `+CPAS:` every other alternative mismatches, so the phone activity parser decides. */
  lemma RoutePhoneActivity(s: string)
    requires |s| >= 7 && s[..7] == "+CPAS: "
    ensures ResponseAt(s, 0) == ParsePhoneActivityStatus(s, 0)
    ensures Parse(s) == Decide(s, ParsePhoneActivityStatus(s, 0))
  {
    assert s[0] == '+' && s[2] == 'P';
    TagMismatchAt("OK\r", s, 0, 0);
    TagMismatchAt("ERROR\r", s, 0, 0);
    TagMismatchAt("+CME ERROR: ", s, 0, 2);
    TagMismatchAt("+CMS ERROR: ", s, 0, 2);
    TagMismatchAt("Call Ready\r", s, 0, 0);
    TagMismatchAt("SMS Ready\r", s, 0, 0);
    TagMismatchAt("RING\r", s, 0, 0);
    TagMismatchAt("NO CARRIER\r", s, 0, 0);
    TagMismatchAt("+COPS: ", s, 0, 2);
    TagMismatchAt("+CREG: ", s, 0, 2);
    TagMismatchAt("+CSQ: ", s, 0, 2);
    TagMismatchAt("+CBC: ", s, 0, 2);
    TagMismatchAt("+CMGL: ", s, 0, 2);
    TagMismatchAt("+CMGR: ", s, 0, 2);
    TagMismatchAt("+CMTI: ", s, 0, 2);
    TagMismatchAt("+CLCC: ", s, 0, 2);
    assert Char('\r', s, 0) == Mismatch;
  }

  /** On a line that starts with `+CSQ:` every other alternative mismatches, so the signal quality parser decides. */
  lemma RouteSignalQuality(s: string)
    requires |s| >= 6 && s[..6] == "+CSQ: "
    ensures ResponseAt(s, 0) == ParseSignalQuality(s, 0)
    ensures Parse(s) == Decide(s, ParseSignalQuality(s, 0))
  {
    assert s[0] == '+' && s[2] == 'S';
    TagMismatchAt("OK\r", s, 0, 0);
    TagMismatchAt("ERROR\r", s, 0, 0);
    TagMismatchAt("+CME ERROR: ", s, 0, 2);
    TagMismatchAt("+CMS ERROR: ", s, 0, 2);
    TagMismatchAt("Call Ready\r", s, 0, 0);
    TagMismatchAt("SMS Ready\r", s, 0, 0);
    TagMismatchAt("RING\r", s, 0, 0);
    TagMismatchAt("NO CARRIER\r", s, 0, 0);
    TagMismatchAt("+COPS: ", s, 0, 2);
    TagMismatchAt("+CREG: ", s, 0, 2);
    TagMismatchAt("+CPAS: ", s, 0, 2);
    TagMismatchAt("+CBC: ", s, 0, 2);
    TagMismatchAt("+CMGL: ", s, 0, 2);
    TagMismatchAt("+CMGR: ", s, 0, 2);
    TagMismatchAt("+CMTI: ", s, 0, 2);
    TagMismatchAt("+CLCC: ", s, 0, 2);
    assert Char('\r', s, 0) == Mismatch;
  }

  /** On a line that starts with `+CBC:` every other alternative mismatches, so the battery charge parser decides. */
  lemma RouteBatteryCharge(s: string)
    requires |s| >= 6 && s[..6] == "+CBC: "
    ensures ResponseAt(s, 0) == ParseBatteryCharge(s, 0)
    ensures Parse(s) == Decide(s, ParseBatteryCharge(s, 0))
  {
    assert s[0] == '+' && s[2] == 'B';
    TagMismatchAt("OK\r", s, 0, 0);
    TagMismatchAt("ERROR\r", s, 0, 0);
    TagMismatchAt("+CME ERROR: ", s, 0, 2);
    TagMismatchAt("+CMS ERROR: ", s, 0, 2);
    TagMismatchAt("Call Ready\r", s, 0, 0);
    TagMismatchAt("SMS Ready\r", s, 0, 0);
    TagMismatchAt("RING\r", s, 0, 0);
    TagMismatchAt("NO CARRIER\r", s, 0, 0);
    TagMismatchAt("+COPS: ", s, 0, 2);
    TagMismatchAt("+CREG: ", s, 0, 2);
    TagMismatchAt("+CPAS: ", s, 0, 2);
    TagMismatchAt("+CSQ: ", s, 0, 2);
    TagMismatchAt("+CMGL: ", s, 0, 2);
    TagMismatchAt("+CMGR: ", s, 0, 2);
    TagMismatchAt("+CMTI: ", s, 0, 2);
    TagMismatchAt("+CLCC: ", s, 0, 2);
    assert Char('\r', s, 0) == Mismatch;
  }

  /** On a line that starts with `+CMGL:` every other alternative mismatches, so the message listing parser decides. */
  lemma RouteListSms(s: string)
    requires |s| >= 7 && s[..7] == "+CMGL: "
    ensures ResponseAt(s, 0) == ParseListSmsMessages(s, 0)
    ensures Parse(s) == Decide(s, ParseListSmsMessages(s, 0))
  {
    assert s[0] == '+' && s[2] == 'M' && s[3] == 'G' && s[4] == 'L';
    TagMismatchAt("OK\r", s, 0, 0);
    TagMismatchAt("ERROR\r", s, 0, 0);
    TagMismatchAt("+CME ERROR: ", s, 0, 3);
    TagMismatchAt("+CMS ERROR: ", s, 0, 3);
    TagMismatchAt("Call Ready\r", s, 0, 0);
    TagMismatchAt("SMS Ready\r", s, 0, 0);
    TagMismatchAt("RING\r", s, 0, 0);
    TagMismatchAt("NO CARRIER\r", s, 0, 0);
    TagMismatchAt("+COPS: ", s, 0, 2);
    TagMismatchAt("+CREG: ", s, 0, 2);
    TagMismatchAt("+CPAS: ", s, 0, 2);
    TagMismatchAt("+CSQ: ", s, 0, 2);
    TagMismatchAt("+CBC: ", s, 0, 2);
    TagMismatchAt("+CMGR: ", s, 0, 4);
    TagMismatchAt("+CMTI: ", s, 0, 3);
    TagMismatchAt("+CLCC: ", s, 0, 2);
    assert Char('\r', s, 0) == Mismatch;
  }

  /** On a line that starts with `+CMGR:` every other alternative mismatches, so the message read parser decides. */
  lemma RouteReadSms(s: string)
    requires |s| >= 7 && s[..7] == "+CMGR: "
    ensures ResponseAt(s, 0) == ParseReadSmsMessages(s, 0)
    ensures Parse(s) == Decide(s, ParseReadSmsMessages(s, 0))
  {
    assert s[0] == '+' && s[2] == 'M' && s[3] == 'G' && s[4] == 'R';
    TagMismatchAt("OK\r", s, 0, 0);
    TagMismatchAt("ERROR\r", s, 0, 0);
    TagMismatchAt("+CME ERROR: ", s, 0, 3);
    TagMismatchAt("+CMS ERROR: ", s, 0, 3);
    TagMismatchAt("Call Ready\r", s, 0, 0);
    TagMismatchAt("SMS Ready\r", s, 0, 0);
    TagMismatchAt("RING\r", s, 0, 0);
    TagMismatchAt("NO CARRIER\r", s, 0, 0);
    TagMismatchAt("+COPS: ", s, 0, 2);
    TagMismatchAt("+CREG: ", s, 0, 2);
    TagMismatchAt("+CPAS: ", s, 0, 2);
    TagMismatchAt("+CSQ: ", s, 0, 2);
    TagMismatchAt("+CBC: ", s, 0, 2);
    TagMismatchAt("+CMGL: ", s, 0, 4);
    TagMismatchAt("+CMTI: ", s, 0, 3);
    TagMismatchAt("+CLCC: ", s, 0, 2);
    assert Char('\r', s, 0) == Mismatch;
  }

  /** On a line that starts with `+CLCC:` every other alternative mismatches, so the call listing parser decides. */
  lemma RouteCalls(s: string)
    requires |s| >= 7 && s[..7] == "+CLCC: "
    ensures ResponseAt(s, 0) == ParseListCurrentCalls(s, 0)
    ensures Parse(s) == Decide(s, ParseListCurrentCalls(s, 0))
  {
    assert s[0] == '+' && s[2] == 'L';
    TagMismatchAt("OK\r", s, 0, 0);
    TagMismatchAt("ERROR\r", s, 0, 0);
    TagMismatchAt("+CME ERROR: ", s, 0, 2);
    TagMismatchAt("+CMS ERROR: ", s, 0, 2);
    TagMismatchAt("Call Ready\r", s, 0, 0);
    TagMismatchAt("SMS Ready\r", s, 0, 0);
    TagMismatchAt("RING\r", s, 0, 0);
    TagMismatchAt("NO CARRIER\r", s, 0, 0);
    TagMismatchAt("+COPS: ", s, 0, 2);
    TagMismatchAt("+CREG: ", s, 0, 2);
    TagMismatchAt("+CPAS: ", s, 0, 2);
    TagMismatchAt("+CSQ: ", s, 0, 2);
    TagMismatchAt("+CBC: ", s, 0, 2);
    TagMismatchAt("+CMGL: ", s, 0, 2);
    TagMismatchAt("+CMGR: ", s, 0, 2);
    TagMismatchAt("+CMTI: ", s, 0, 2);
    assert Char('\r', s, 0) == Mismatch;
  }

  /** On a line that starts with `+CREG:` every other alternative mismatches, so the network registration parser decides. */
  lemma RouteNetworkRegistration(s: string)
    requires |s| >= 7 && s[..7] == "+CREG: "
    ensures ResponseAt(s, 0) == ParseNetworkRegistration(s, 0)
    ensures Parse(s) == Decide(s, ParseNetworkRegistration(s, 0))
  {
    assert s[0] == '+' && s[2] == 'R';
    TagMismatchAt("OK\r", s, 0, 0);
    TagMismatchAt("ERROR\r", s, 0, 0);
    TagMismatchAt("+CME ERROR: ", s, 0, 2);
    TagMismatchAt("+CMS ERROR: ", s, 0, 2);
    TagMismatchAt("Call Ready\r", s, 0, 0);
    TagMismatchAt("SMS Ready\r", s, 0, 0);
    TagMismatchAt("RING\r", s, 0, 0);
    TagMismatchAt("NO CARRIER\r", s, 0, 0);
    TagMismatchAt("+COPS: ", s, 0, 2);
    TagMismatchAt("+CPAS: ", s, 0, 2);
    TagMismatchAt("+CSQ: ", s, 0, 2);
    TagMismatchAt("+CBC: ", s, 0, 2);
    TagMismatchAt("+CMGL: ", s, 0, 2);
    TagMismatchAt("+CMGR: ", s, 0, 2);
    TagMismatchAt("+CMTI: ", s, 0, 2);
    TagMismatchAt("+CLCC: ", s, 0, 2);
    assert Char('\r', s, 0) == Mismatch;
  }

  /** On a line that starts with `+CMTI:` every other alternative mismatches, so the new message parser decides. */
  lemma RouteNewSms(s: string)
    requires |s| >= 7 && s[..7] == "+CMTI: "
    ensures ResponseAt(s, 0) == ParseNewSmsMessages(s, 0)
    ensures Parse(s) == Decide(s, ParseNewSmsMessages(s, 0))
  {
    assert s[0] == '+' && s[2] == 'M' && s[3] == 'T';
    TagMismatchAt("OK\r", s, 0, 0);
    TagMismatchAt("ERROR\r", s, 0, 0);
    TagMismatchAt("+CME ERROR: ", s, 0, 3);
    TagMismatchAt("+CMS ERROR: ", s, 0, 3);
    TagMismatchAt("Call Ready\r", s, 0, 0);
    TagMismatchAt("SMS Ready\r", s, 0, 0);
    TagMismatchAt("RING\r", s, 0, 0);
    TagMismatchAt("NO CARRIER\r", s, 0, 0);
    TagMismatchAt("+COPS: ", s, 0, 2);
    TagMismatchAt("+CREG: ", s, 0, 2);
    TagMismatchAt("+CPAS: ", s, 0, 2);
    TagMismatchAt("+CSQ: ", s, 0, 2);
    TagMismatchAt("+CBC: ", s, 0, 2);
    TagMismatchAt("+CMGL: ", s, 0, 3);
    TagMismatchAt("+CMGR: ", s, 0, 3);
    TagMismatchAt("+CLCC: ", s, 0, 2);
    assert Char('\r', s, 0) == Mismatch;
  }

  // ---------------------------------------------------------------------
  // Deciding

  /** On a `+COPS:` line, `parse` reports what the operator selection parser yields. */
  lemma OperatorSelectionDecides(s: string, r: Outcome<Response>)
    requires |s| >= 7 && s[..7] == "+COPS: " && ParseOperatorSelection(s, 0) == r
    ensures r.Parsed? ==> Parse(s) == Success(r.value, s[r.pos..])
    ensures r.Mismatch? ==> Parse(s) == Malformed
    ensures r.Violation? ==> Parse(s) == ProtocolViolation
  {
    RouteOperatorSelection(s);
  }

  /** On a `+CPAS:` line, `parse` reports what the phone activity parser yields. */
  lemma PhoneActivityDecides(s: string, r: Outcome<Response>)
    requires |s| >= 7 && s[..7] == "+CPAS: " && ParsePhoneActivityStatus(s, 0) == r
    ensures r.Parsed? ==> Parse(s) == Success(r.value, s[r.pos..])
    ensures r.Mismatch? ==> Parse(s) == Malformed
    ensures r.Violation? ==> Parse(s) == ProtocolViolation
  {
    RoutePhoneActivity(s);
  }

  /** On a `+CSQ:` line, `parse` reports what the signal quality parser yields. */
  lemma SignalQualityDecides(s: string, r: Outcome<Response>)
    requires |s| >= 6 && s[..6] == "+CSQ: " && ParseSignalQuality(s, 0) == r
    ensures r.Parsed? ==> Parse(s) == Success(r.value, s[r.pos..])
    ensures r.Mismatch? ==> Parse(s) == Malformed
    ensures r.Violation? ==> Parse(s) == ProtocolViolation
  {
    RouteSignalQuality(s);
  }

  /** On a `+CBC:` line, `parse` reports what the battery charge parser yields. */
  lemma BatteryChargeDecides(s: string, r: Outcome<Response>)
    requires |s| >= 6 && s[..6] == "+CBC: " && ParseBatteryCharge(s, 0) == r
    ensures r.Parsed? ==> Parse(s) == Success(r.value, s[r.pos..])
    ensures r.Mismatch? ==> Parse(s) == Malformed
    ensures r.Violation? ==> Parse(s) == ProtocolViolation
  {
    RouteBatteryCharge(s);
  }

  /** On a `+CLCC:` line, `parse` reports what the current calls parser yields. */
  lemma CallsDecides(s: string, r: Outcome<Response>)
    requires |s| >= 7 && s[..7] == "+CLCC: " && ParseListCurrentCalls(s, 0) == r
    ensures r.Parsed? ==> Parse(s) == Success(r.value, s[r.pos..])
    ensures r.Mismatch? ==> Parse(s) == Malformed
    ensures r.Violation? ==> Parse(s) == ProtocolViolation
  {
    RouteCalls(s);
  }

  /** On a `+CMGL` line, `parse` reports what the listing parser yields. */
  lemma ListSmsDecides(s: string, r: Outcome<Response>)
    requires |s| >= 7 && s[..7] == "+CMGL: " && ParseListSmsMessages(s, 0) == r
    ensures r.Parsed? ==> Parse(s) == Success(r.value, s[r.pos..])
    ensures r.Mismatch? ==> Parse(s) == Malformed
    ensures r.Violation? ==> Parse(s) == ProtocolViolation
  {
    RouteListSms(s);
  }

  /** On a `+CMGR` line, `parse` reports what the read parser yields. */
  lemma ReadSmsDecides(s: string, r: Outcome<Response>)
    requires |s| >= 7 && s[..7] == "+CMGR: " && ParseReadSmsMessages(s, 0) == r
    ensures r.Parsed? ==> Parse(s) == Success(r.value, s[r.pos..])
    ensures r.Mismatch? ==> Parse(s) == Malformed
    ensures r.Violation? ==> Parse(s) == ProtocolViolation
  {
    RouteReadSms(s);
  }

  /** On a `+CREG:` line, `parse` reports what the network registration parser yields. */
  lemma NetworkRegistrationDecides(s: string, r: Outcome<Response>)
    requires |s| >= 7 && s[..7] == "+CREG: " && ParseNetworkRegistration(s, 0) == r
    ensures r.Parsed? ==> Parse(s) == Success(r.value, s[r.pos..])
    ensures r.Mismatch? ==> Parse(s) == Malformed
    ensures r.Violation? ==> Parse(s) == ProtocolViolation
  {
    RouteNetworkRegistration(s);
  }

  /** On a `+CMTI:` line, `parse` reports what the new message parser yields. */
  lemma NewSmsDecides(s: string, r: Outcome<Response>)
    requires |s| >= 7 && s[..7] == "+CMTI: " && ParseNewSmsMessages(s, 0) == r
    ensures r.Parsed? ==> Parse(s) == Success(r.value, s[r.pos..])
    ensures r.Mismatch? ==> Parse(s) == Malformed
    ensures r.Violation? ==> Parse(s) == ProtocolViolation
  {
    RouteNewSms(s);
  }

  // ---------------------------------------------------------------------
  // Replies

  /** `+CPAS: <status>\r\r`: the activity status and the rest of the buffer, or a violation for an unknown code. */
  lemma PhoneActivityReply(s: string, j: nat)
    requires |s| >= 7 && s[..7] == "+CPAS: "
    requires NumberAt(s, 7, j, 0xFF) && CrCrAt(s, j)
    ensures Parse(s) ==
      match PhoneActivityStatusOf(CodeAt(s, 7, j))
      case Some(status) => Success(PhoneActivity(status), s[j + 2..])
      case None => ProtocolViolation
  {
    assert s[0..7] == s[..7];
    PhoneActivityAt(s, 0, j);
    PhoneActivityDecides(s, ParsePhoneActivityStatus(s, 0));
  }

  /** `+CSQ: <rssi>,<rate>\r\r`: both codes decoded, or a violation when either is unknown. */
  lemma SignalQualityReply(s: string, j: nat, k: nat)
    requires |s| >= 6 && s[..6] == "+CSQ: "
    requires NumberAt(s, 6, j, 0xFF) && s[j] == ','
    requires NumberAt(s, j + 1, k, 0xFF) && CrCrAt(s, k)
    ensures Parse(s) ==
      match (SignalQualityRssiOf(CodeAt(s, 6, j)), SignalQualityErrorRateOf(CodeAt(s, j + 1, k)))
      case (Some(rssi), Some(rate)) => Success(SignalQuality(rssi, rate), s[k + 2..])
      case _ => ProtocolViolation
  {
    assert s[0..6] == s[..6];
    SignalQualityAt(s, 0, j, k);
    SignalQualityDecides(s, ParseSignalQuality(s, 0));
  }

  /** `+CBC: <status>,<level>,<voltage>\r\r`: the coded status with the level and voltage as written. */
  lemma BatteryChargeReply(s: string, j: nat, k: nat, m: nat)
    requires |s| >= 6 && s[..6] == "+CBC: "
    requires NumberAt(s, 6, j, 0xFF) && s[j] == ','
    requires NumberAt(s, j + 1, k, 0xFF) && s[k] == ','
    requires NumberAt(s, k + 1, m, 0xFFFF) && CrCrAt(s, m)
    ensures Parse(s) ==
      match BatteryChargeStatusOf(CodeAt(s, 6, j))
      case Some(status) => Success(BatteryCharge(status, Decimal(s[j + 1..k]) as uint8, Decimal(s[k + 1..m]) as uint16), s[m + 2..])
      case None => ProtocolViolation
  {
    assert s[0..6] == s[..6];
    BatteryChargeAt(s, 0, j, k, m);
    BatteryChargeDecides(s, ParseBatteryCharge(s, 0));
  }

  /** `+COPS: <mode>\r\r`: the mode alone. */
  lemma OperatorModeReply(s: string, j: nat)
    requires |s| >= 7 && s[..7] == "+COPS: "
    requires NumberAt(s, 7, j, 0xFF) && CrCrAt(s, j)
    ensures Parse(s) ==
      match OperatorSelectionModeOf(CodeAt(s, 7, j))
      case Some(mode) => Success(OperatorSelection(mode, None, None), s[j + 2..])
      case None => ProtocolViolation
  {
    assert s[0..7] == s[..7];
    OperatorModeAt(s, 0, j);
    OperatorSelectionDecides(s, ParseOperatorSelection(s, 0));
  }

  /** `+COPS: <mode>,<format>,"<operator>"\r\r`: mode, format and operator, or a violation for an unknown code. */
  lemma OperatorSelectionReply(s: string, j: nat, f: nat, q: nat)
    requires |s| >= 7 && s[..7] == "+COPS: "
    requires NumberAt(s, 7, j, 0xFF) && s[j] == ','
    requires NumberAt(s, j + 1, f, 0xFF) && s[f] == ','
    requires QuotedAt(s, f + 1, q) && CrCrAt(s, q)
    ensures Parse(s) ==
      match (OperatorSelectionModeOf(CodeAt(s, 7, j)), OperatorSelectionFormatOf(CodeAt(s, j + 1, f)))
      case (Some(mode), Some(format)) => Success(OperatorSelection(mode, Some(format), Some(s[f + 2..q - 1])), s[q + 2..])
      case _ => ProtocolViolation
  {
    assert s[0..7] == s[..7];
    OperatorSelectionAt(s, 0, j, f, q);
    OperatorSelectionDecides(s, ParseOperatorSelection(s, 0));
  }

  /** A `+COPS` line with a known mode whose operator is followed by anything but `\r` is malformed, whatever its format. */
  lemma OperatorUnterminatedReply(s: string, j: nat, f: nat, q: nat)
    requires |s| >= 7 && s[..7] == "+COPS: "
    requires NumberAt(s, 7, j, 0xFF) && s[j] == ','
    requires NumberAt(s, j + 1, f, 0xFF) && s[f] == ','
    requires QuotedAt(s, f + 1, q) && q < |s| && s[q] != '\r'
    requires OperatorSelectionModeOf(CodeAt(s, 7, j)).Some?
    ensures Parse(s) == Malformed
  {
    assert s[0..7] == s[..7];
    OperatorUnterminated(s, 0, j, f, q);
    OperatorSelectionDecides(s, ParseOperatorSelection(s, 0));
  }

  /** `+CLCC: <index>,<codes>\r\r`: a call without number, type or name. */
  lemma CallWithoutNumberReply(s: string, x: nat, a: nat, b: nat, c: nat, d: nat)
    requires |s| >= 7 && s[..7] == "+CLCC: "
    requires NumberAt(s, 7, x, 0xFFFF) && CallCodesText(s, x, a, b, c, d) && CrCrAt(s, d)
    ensures Parse(s) ==
      match CallCodesValue(s, x, a, b, c, d)
      case Some(f) =>
        Success(ListCurrentCalls(Decimal(s[7..x]) as uint16, f.direction, f.state, f.mode, f.multiparty, None, None, None), s[d + 2..])
      case None => ProtocolViolation
  {
    assert s[0..7] == s[..7];
    CallWithoutNumberAt(s, 0, x, a, b, c, d);
    var r := ParseListCurrentCalls(s, 0);
    match CallCodesValue(s, x, a, b, c, d)
    case Some(f) =>
      assert r == Parsed(ListCurrentCalls(Decimal(s[7..x]) as uint16, f.direction, f.state, f.mode, f.multiparty, None, None, None), d + 2);
      CallsDecides(s, r);
    case None =>
      assert r == Violation;
      CallsDecides(s, r);
  }

  /** `+CLCC: <index>,<codes>,"<number>",<type>,"<name>"\r\r`: a call with its number group. */
  lemma CallWithNumberReply(s: string, x: nat, a: nat, b: nat, c: nat, d: nat, n: nat, t: nat, e: nat)
    requires |s| >= 7 && s[..7] == "+CLCC: "
    requires NumberAt(s, 7, x, 0xFFFF) && CallCodesText(s, x, a, b, c, d)
    requires CallNumberText(s, d, n, t, e) && CrCrAt(s, e)
    ensures Parse(s) ==
      match CallCodesValue(s, x, a, b, c, d)
      case Some(f) =>
        Success(ListCurrentCalls(Decimal(s[7..x]) as uint16, f.direction, f.state, f.mode, f.multiparty,
                                 Some(s[d + 2..n - 1]), Some(Decimal(s[n + 1..t]) as uint16), Some(s[t + 2..e - 1])), s[e + 2..])
      case None => ProtocolViolation
  {
    assert s[0..7] == s[..7];
    CallWithNumberAt(s, 0, x, a, b, c, d, n, t, e);
    var r := ParseListCurrentCalls(s, 0);
    match CallCodesValue(s, x, a, b, c, d)
    case Some(f) =>
      assert r == Parsed(ListCurrentCalls(Decimal(s[7..x]) as uint16, f.direction, f.state, f.mode, f.multiparty,
                                          Some(s[d + 2..n - 1]), Some(Decimal(s[n + 1..t]) as uint16), Some(s[t + 2..e - 1])), e + 2);
      CallsDecides(s, r);
    case None =>
      assert r == Violation;
      CallsDecides(s, r);
  }

  /** `+CREG: <mode>,<status>\r\r`: mode and status with no location, or a violation when either code is unknown. */
  lemma NetworkRegistrationReply(s: string, j: nat, k: nat)
    requires |s| >= 7 && s[..7] == "+CREG: "
    requires NumberAt(s, 7, j, 0xFF) && s[j] == ','
    requires NumberAt(s, j + 1, k, 0xFF) && CrCrAt(s, k)
    ensures Parse(s) ==
      match (NetworkRegistrationModeOf(CodeAt(s, 7, j)), NetworkRegistrationStatusOf(CodeAt(s, j + 1, k)))
      case (Some(mode), Some(status)) => Success(NetworkRegistration(mode, status, None, None), s[k + 2..])
      case _ => ProtocolViolation
  {
    assert s[0..7] == s[..7];
    NetworkRegistrationAt(s, 0, j, k);
    var r := ParseNetworkRegistration(s, 0);
    match (NetworkRegistrationModeOf(CodeAt(s, 7, j)), NetworkRegistrationStatusOf(CodeAt(s, j + 1, k)))
    case (Some(mode), Some(status)) =>
      assert r == Parsed(NetworkRegistration(mode, status, None, None), k + 2);
      NetworkRegistrationDecides(s, r);
    case _ =>
      assert r == Violation;
      NetworkRegistrationDecides(s, r);
  }

  /** `+CREG: <mode>,<status>,"<location>","<cell>"\r\r`: mode and status with the location and cell id as written. */
  lemma NetworkRegistrationWithLocationReply(s: string, j: nat, k: nat, n: nat, e: nat)
    requires |s| >= 7 && s[..7] == "+CREG: "
    requires NumberAt(s, 7, j, 0xFF) && s[j] == ','
    requires NumberAt(s, j + 1, k, 0xFF) && LocationText(s, k, n, e) && CrCrAt(s, e)
    ensures Parse(s) ==
      match (NetworkRegistrationModeOf(CodeAt(s, 7, j)), NetworkRegistrationStatusOf(CodeAt(s, j + 1, k)))
      case (Some(mode), Some(status)) =>
        Success(NetworkRegistration(mode, status, Some(s[k + 2..n - 1]), Some(s[n + 2..e - 1])), s[e + 2..])
      case _ => ProtocolViolation
  {
    assert s[0..7] == s[..7];
    NetworkRegistrationWithLocationAt(s, 0, j, k, n, e);
    var r := ParseNetworkRegistration(s, 0);
    match (NetworkRegistrationModeOf(CodeAt(s, 7, j)), NetworkRegistrationStatusOf(CodeAt(s, j + 1, k)))
    case (Some(mode), Some(status)) =>
      assert r == Parsed(NetworkRegistration(mode, status, Some(s[k + 2..n - 1]), Some(s[n + 2..e - 1])), e + 2);
      NetworkRegistrationDecides(s, r);
    case _ =>
      assert r == Violation;
      NetworkRegistrationDecides(s, r);
  }

  /** `+CMTI: "<storage>",<index>\r`: the new message's storage and index, or a violation for an unknown storage. */
  lemma NewSmsReply(s: string, q: nat, x: nat)
    requires |s| >= 7 && s[..7] == "+CMTI: " && QuotedAt(s, 7, q)
    requires q < |s| && s[q] == ',' && NumberAt(s, q + 1, x, 0xFFFF) && s[x] == '\r'
    ensures Parse(s) ==
      match SmsMessageStorageOf(s[8..q - 1])
      case Some(storage) => Success(NewSmsMessage(storage, Decimal(s[q + 1..x]) as uint16), s[x + 1..])
      case None => ProtocolViolation
  {
    assert s[0..7] == s[..7];
    NewSmsAt(s, 0, q, x);
    NewSmsDecides(s, ParseNewSmsMessages(s, 0));
  }

  // ---------------------------------------------------------------------
  // Worked replies

  /** The strongest signal with an unknown bit error rate, followed by anything. */
  lemma SignalQualityExample(rest: string)
    ensures Parse("+CSQ: 31,99\r\r" + rest) ==
      Success(SignalQuality(SignalQualityRssi.Value(-52), SignalQualityErrorRate.Unknown), rest)
  {
    var s := "+CSQ: 31,99\r\r" + rest;
    SignalQualityExampleAt(s, rest);
    SignalQualityDecides(s, ParseSignalQuality(s, 0));
  }

  lemma SignalQualityExampleAt(s: string, rest: string)
    requires s == "+CSQ: 31,99\r\r" + rest
    ensures s[..6] == "+CSQ: " && s[13..] == rest
    ensures ParseSignalQuality(s, 0) == Parsed(SignalQuality(SignalQualityRssi.Value(-52), SignalQualityErrorRate.Unknown), 13)
  {
    SignalQualityExampleText(s, rest);
    SignalQualityPieces(s, 0, 8, 11);
    SignalQualityOf(s, 0, 31, 8, 99, 11);
  }

  /** The layout of that line, field by field. */
  lemma SignalQualityExampleText(s: string, rest: string)
    requires s == "+CSQ: 31,99\r\r" + rest
    ensures s[..6] == "+CSQ: " && s[13..] == rest
    ensures s[0..6] == "+CSQ: " && NumberAt(s, 6, 8, 0xFF) && s[8] == ','
    ensures NumberAt(s, 9, 11, 0xFF) && CrCrAt(s, 11)
    ensures Decimal(s[6..8]) == 31 && Decimal(s[9..11]) == 99
  {
    assert s[0..6] == "+CSQ: ";
    assert s[6..8] == "31" && Decimal("31") == 31;
    assert s[9..11] == "99" && Decimal("99") == 99;
  }

  /** A phone that is ready. */
  lemma PhoneActivityExample(rest: string)
    ensures Parse("+CPAS: 0\r\r" + rest) == Success(PhoneActivity(Ready), rest)
  {
    var s := "+CPAS: 0\r\r" + rest;
    PhoneActivityExampleAt(s, rest);
    PhoneActivityDecides(s, ParsePhoneActivityStatus(s, 0));
  }

  lemma PhoneActivityExampleAt(s: string, rest: string)
    requires s == "+CPAS: 0\r\r" + rest
    ensures s[..7] == "+CPAS: " && s[10..] == rest
    ensures ParsePhoneActivityStatus(s, 0) == Parsed(PhoneActivity(Ready), 10)
  {
    assert s[0..7] == "+CPAS: ";
    assert s[7..8] == "0" && Decimal("0") == 0;
    PhoneActivityAt(s, 0, 8);
  }

  /** A battery that is not charging, at 85 percent and 4100 mV. */
  lemma BatteryChargeExample(rest: string)
    ensures Parse("+CBC: 0,85,4100\r\r" + rest) == Success(BatteryCharge(NotCharging, 85, 4100), rest)
  {
    var s := "+CBC: 0,85,4100\r\r" + rest;
    BatteryChargeExampleAt(s, rest);
    BatteryChargeDecides(s, ParseBatteryCharge(s, 0));
  }

  lemma BatteryChargeExampleAt(s: string, rest: string)
    requires s == "+CBC: 0,85,4100\r\r" + rest
    ensures s[..6] == "+CBC: " && s[17..] == rest
    ensures ParseBatteryCharge(s, 0) == Parsed(BatteryCharge(NotCharging, 85, 4100), 17)
  {
    BatteryChargeExampleText(s, rest);
    BatteryChargePieces(s, 0, 7, 10, 15);
    BatteryChargeOf(s, 0, 0, 7, 85, 10, 4100, 15);
  }

  /** The layout of that line, field by field. */
  lemma BatteryChargeExampleText(s: string, rest: string)
    requires s == "+CBC: 0,85,4100\r\r" + rest
    ensures s[..6] == "+CBC: " && s[17..] == rest
    ensures s[0..6] == "+CBC: " && NumberAt(s, 6, 7, 0xFF) && s[7] == ','
    ensures NumberAt(s, 8, 10, 0xFF) && s[10] == ','
    ensures NumberAt(s, 11, 15, 0xFFFF) && CrCrAt(s, 15)
    ensures Decimal(s[6..7]) == 0 && Decimal(s[8..10]) == 85 && Decimal(s[11..15]) == 4100
  {
    assert s[0..6] == "+CBC: ";
    assert s[6..7] == "0" && Decimal("0") == 0;
    assert s[8..10] == "85" && Decimal("85") == 85;
    assert s[11..15] == "4100" && Decimal("4100") == 4100 by {
      assert "4100"[..3] == "410" && "410"[..2] == "41" && Decimal("41") == 41;
    }
  }

  /** An operator selection with format code 3, which the format table does not know: a protocol violation. */
  lemma OperatorFormatViolationExample(rest: string)
    ensures Parse("+COPS: 0,3,\"X\"\r\r" + rest) == ProtocolViolation
  {
    var s := "+COPS: 0,3,\"X\"\r\r" + rest;
    OperatorFormatViolationExampleAt(s, rest);
    OperatorSelectionDecides(s, ParseOperatorSelection(s, 0));
  }

  lemma OperatorFormatViolationExampleAt(s: string, rest: string)
    requires s == "+COPS: 0,3,\"X\"\r\r" + rest
    ensures s[..7] == "+COPS: "
    ensures ParseOperatorSelection(s, 0) == Violation
  {
    assert s[0..7] == "+COPS: ";
    assert s[7..8] == "0" && Decimal("0") == 0;
    assert s[9..10] == "3" && Decimal("3") == 3;
    OperatorSelectionAt(s, 0, 8, 10, 14);
  }
}
