/**
  The streaming contract of every parser of the grammar: run on a prefix
  `s[..k]` of the buffer, a parser either asks for more input or gives the
  answer it gives on the whole buffer. Each proof follows the parser's
  sequence step by step: a step that is decided on the prefix is decided
  the same way on the whole buffer, at the same position.
*/
module ParserStability {

  import opened Base
  import opened Streaming
  import opened Codes
  import opened Responses
  import opened Parser

  lemma CrCrStable(s: string, k: nat, i: nat)
    requires i <= k <= |s|
    ensures Stable(CrCr(s[..k], i), CrCr(s, i))
  {
    TagStable("\r\r", s, k, i);
  }

  lemma CodedStable<E>(onPrefix: Outcome<nat>, onWhole: Outcome<nat>, table: uint8 -> Option<E>)
    requires onPrefix.Parsed? ==> onPrefix.value < 0x100
    requires onWhole.Parsed? ==> onWhole.value < 0x100
    requires Stable(onPrefix, onWhole)
    ensures Stable(Coded(onPrefix, table), Coded(onWhole, table))
  {
  }

  /** A code field: `u8` then the table. */
  lemma FieldStable<E>(table: uint8 -> Option<E>, s: string, k: nat, i: nat)
    requires i <= k <= |s|
    ensures Stable(Coded(Unsigned(0xFF, s[..k], i), table), Coded(Unsigned(0xFF, s, i), table))
  {
    UnsignedStable(0xFF, s, k, i);
    CodedStable(Unsigned(0xFF, s[..k], i), Unsigned(0xFF, s, i), table);
  }

  lemma QuotedTextStable(s: string, k: nat, i: nat)
    requires i <= k <= |s|
    ensures Stable(QuotedText(s[..k], i), QuotedText(s, i))
  {
    TagStable("\"\"", s, k, i);
    CharStable('"', s, k, i);
    if i < k && s[i] == '"' {
      IsNotStable(NotQuote, s, k, i + 1);
    }
  }

  lemma QuotedHexStable(s: string, k: nat, i: nat)
    requires i <= k <= |s|
    ensures Stable(QuotedHex(s[..k], i), QuotedHex(s, i))
  {
    var p := s[..k];
    CharStable('"', s, k, i);
    var quote := Char('"', p, i);
    if !quote.Parsed? { return; }
    HexDigitsStable(s, k, quote.pos);
    var digits := HexDigits(p, quote.pos);
    if !digits.Parsed? { return; }
    CharStable('"', s, k, digits.pos);
  }

  lemma StringHexStable(s: string, k: nat, i: nat)
    requires i <= k <= |s|
    ensures Stable(StringHex(s[..k], i), StringHex(s, i))
  {
    HexDigitsStable(s, k, i);
  }

  lemma TimestampStable(s: string, k: nat, i: nat)
    requires i <= k <= |s|
    ensures Stable(Timestamp(s[..k], i), Timestamp(s, i))
  {
    TimestampFieldsStable(s, k, i);
  }

  lemma TimestampFieldsStable(s: string, k: nat, i: nat)
    requires i <= k <= |s|
    ensures Stable(TimestampFields(s[..k], i), TimestampFields(s, i))
  {
    var p := s[..k];
    CharStable('"', s, k, i);
    var quote := Char('"', p, i);
    if !quote.Parsed? { return; }
    SignedStable(-0x8000, 0x7FFF, s, k, quote.pos);
    var year := Signed(-0x8000, 0x7FFF, p, quote.pos);
    if !year.Parsed? { return; }
    CharStable('/', s, k, year.pos);
    var slash1 := Char('/', p, year.pos);
    if !slash1.Parsed? { return; }
    UnsignedStable(0xFF, s, k, slash1.pos);
    var month := Unsigned(0xFF, p, slash1.pos);
    if !month.Parsed? { return; }
    CharStable('/', s, k, month.pos);
    var slash2 := Char('/', p, month.pos);
    if !slash2.Parsed? { return; }
    UnsignedStable(0xFF, s, k, slash2.pos);
    var day := Unsigned(0xFF, p, slash2.pos);
    if !day.Parsed? { return; }
    CharStable(',', s, k, day.pos);
    var comma := Char(',', p, day.pos);
    if !comma.Parsed? { return; }
    UnsignedStable(0xFF, s, k, comma.pos);
    var hour := Unsigned(0xFF, p, comma.pos);
    if !hour.Parsed? { return; }
    CharStable(':', s, k, hour.pos);
    var colon1 := Char(':', p, hour.pos);
    if !colon1.Parsed? { return; }
    UnsignedStable(0xFF, s, k, colon1.pos);
    var minute := Unsigned(0xFF, p, colon1.pos);
    if !minute.Parsed? { return; }
    CharStable(':', s, k, minute.pos);
    var colon2 := Char(':', p, minute.pos);
    if !colon2.Parsed? { return; }
    UnsignedStable(0xFF, s, k, colon2.pos);
    var second := Unsigned(0xFF, p, colon2.pos);
    if !second.Parsed? { return; }
    SignedStable(-0x80, 0x7F, s, k, second.pos);
    var zone := Signed(-0x80, 0x7F, p, second.pos);
    if !zone.Parsed? { return; }
    CharStable('"', s, k, zone.pos);
  }

  lemma SmsStatusStable(s: string, k: nat, i: nat)
    requires i <= k <= |s|
    ensures Stable(SmsStatus(s[..k], i), SmsStatus(s, i))
  {
    QuotedTextStable(s, k, i);
  }

  lemma SmsStorageStable(s: string, k: nat, i: nat)
    requires i <= k <= |s|
    ensures Stable(SmsStorage(s[..k], i), SmsStorage(s, i))
  {
    QuotedTextStable(s, k, i);
  }

  lemma LiteralStable(w: string, v: Response, s: string, k: nat, i: nat)
    requires i <= k <= |s|
    ensures Stable(Literal(w, v, s[..k], i), Literal(w, v, s, i))
  {
    TagStable(w, s, k, i);
  }

  lemma CodedErrorStable(prefix: string, source: EquipmentErrorSource, s: string, k: nat, i: nat)
    requires i <= k <= |s|
    ensures Stable(CodedError(prefix, source, s[..k], i), CodedError(prefix, source, s, i))
  {
    var p := s[..k];
    TagStable(prefix, s, k, i);
    var t := Tag(prefix, p, i);
    if !t.Parsed? { return; }
    UnsignedStable(0xFFFF, s, k, t.pos);
    var code := Unsigned(0xFFFF, p, t.pos);
    if !code.Parsed? { return; }
    CharStable('\r', s, k, code.pos);
  }

  lemma ParseErrorCodeStable(s: string, k: nat, i: nat)
    requires i <= k <= |s|
    ensures Stable(ParseErrorCode(s[..k], i), ParseErrorCode(s, i))
  {
    CodedErrorStable("+CME ERROR: ", Mobile, s, k, i);
    CodedErrorStable("+CMS ERROR: ", Service, s, k, i);
  }

  lemma MessageErrorStable(prefix: string, source: EquipmentErrorSource, s: string, k: nat, i: nat)
    requires i <= k <= |s|
    ensures Stable(MessageError(prefix, source, s[..k], i), MessageError(prefix, source, s, i))
  {
    var p := s[..k];
    TagStable(prefix, s, k, i);
    var t := Tag(prefix, p, i);
    if !t.Parsed? { return; }
    IsNotStable(NotCarriageReturn, s, k, t.pos);
  }

  lemma ParseErrorMessageStable(s: string, k: nat, i: nat)
    requires i <= k <= |s|
    ensures Stable(ParseErrorMessage(s[..k], i), ParseErrorMessage(s, i))
  {
    MessageErrorStable("+CME ERROR: ", Mobile, s, k, i);
    MessageErrorStable("+CMS ERROR: ", Service, s, k, i);
  }

  lemma OperatorArgsStable(s: string, k: nat, i: nat)
    requires i <= k <= |s|
    ensures Stable(OperatorArgs(s[..k], i), OperatorArgs(s, i))
  {
    var p := s[..k];
    CharStable(',', s, k, i);
    var comma1 := Char(',', p, i);
    if !comma1.Parsed? { return; }
    UnsignedStable(0xFF, s, k, comma1.pos);
    var format := Unsigned(0xFF, p, comma1.pos);
    if !format.Parsed? { return; }
    CharStable(',', s, k, format.pos);
    var comma2 := Char(',', p, format.pos);
    if !comma2.Parsed? { return; }
    QuotedTextStable(s, k, comma2.pos);
  }

  lemma ParseOperatorSelectionStable(s: string, k: nat, i: nat)
    requires i <= k <= |s|
    ensures Stable(ParseOperatorSelection(s[..k], i), ParseOperatorSelection(s, i))
  {
    var p := s[..k];
    TagStable("+COPS: ", s, k, i);
    var t := Tag("+COPS: ", p, i);
    if !t.Parsed? { return; }
    FieldStable(OperatorSelectionModeOf, s, k, t.pos);
    var mode := Coded(Unsigned(0xFF, p, t.pos), OperatorSelectionModeOf);
    if !mode.Parsed? { return; }
    OperatorArgsStable(s, k, mode.pos);
    OptionalStable(OperatorArgs(p, mode.pos), OperatorArgs(s, mode.pos), mode.pos);
    var args := Optional(OperatorArgs(p, mode.pos), mode.pos);
    if !args.Parsed? { return; }
    CrCrStable(s, k, args.pos);
  }

  lemma LocationArgsStable(s: string, k: nat, i: nat)
    requires i <= k <= |s|
    ensures Stable(LocationArgs(s[..k], i), LocationArgs(s, i))
  {
    var p := s[..k];
    CharStable(',', s, k, i);
    var comma1 := Char(',', p, i);
    if !comma1.Parsed? { return; }
    QuotedTextStable(s, k, comma1.pos);
    var location := QuotedText(p, comma1.pos);
    if !location.Parsed? { return; }
    CharStable(',', s, k, location.pos);
    var comma2 := Char(',', p, location.pos);
    if !comma2.Parsed? { return; }
    QuotedTextStable(s, k, comma2.pos);
  }

  lemma ParseNetworkRegistrationStable(s: string, k: nat, i: nat)
    requires i <= k <= |s|
    ensures Stable(ParseNetworkRegistration(s[..k], i), ParseNetworkRegistration(s, i))
  {
    var p := s[..k];
    TagStable("+CREG: ", s, k, i);
    var t := Tag("+CREG: ", p, i);
    if !t.Parsed? { return; }
    FieldStable(NetworkRegistrationModeOf, s, k, t.pos);
    var mode := Coded(Unsigned(0xFF, p, t.pos), NetworkRegistrationModeOf);
    if !mode.Parsed? { return; }
    CharStable(',', s, k, mode.pos);
    var comma := Char(',', p, mode.pos);
    if !comma.Parsed? { return; }
    FieldStable(NetworkRegistrationStatusOf, s, k, comma.pos);
    var status := Coded(Unsigned(0xFF, p, comma.pos), NetworkRegistrationStatusOf);
    if !status.Parsed? { return; }
    LocationArgsStable(s, k, status.pos);
    OptionalStable(LocationArgs(p, status.pos), LocationArgs(s, status.pos), status.pos);
    var args := Optional(LocationArgs(p, status.pos), status.pos);
    if !args.Parsed? { return; }
    CrCrStable(s, k, args.pos);
  }

  lemma ParsePhoneActivityStatusStable(s: string, k: nat, i: nat)
    requires i <= k <= |s|
    ensures Stable(ParsePhoneActivityStatus(s[..k], i), ParsePhoneActivityStatus(s, i))
  {
    var p := s[..k];
    TagStable("+CPAS: ", s, k, i);
    var t := Tag("+CPAS: ", p, i);
    if !t.Parsed? { return; }
    FieldStable(PhoneActivityStatusOf, s, k, t.pos);
    var status := Coded(Unsigned(0xFF, p, t.pos), PhoneActivityStatusOf);
    if !status.Parsed? { return; }
    CrCrStable(s, k, status.pos);
  }

  lemma ParseSignalQualityStable(s: string, k: nat, i: nat)
    requires i <= k <= |s|
    ensures Stable(ParseSignalQuality(s[..k], i), ParseSignalQuality(s, i))
  {
    var p := s[..k];
    TagStable("+CSQ: ", s, k, i);
    var t := Tag("+CSQ: ", p, i);
    if !t.Parsed? { return; }
    FieldStable(SignalQualityRssiOf, s, k, t.pos);
    var rssi := Coded(Unsigned(0xFF, p, t.pos), SignalQualityRssiOf);
    if !rssi.Parsed? { return; }
    CharStable(',', s, k, rssi.pos);
    var comma := Char(',', p, rssi.pos);
    if !comma.Parsed? { return; }
    FieldStable(SignalQualityErrorRateOf, s, k, comma.pos);
    var rate := Coded(Unsigned(0xFF, p, comma.pos), SignalQualityErrorRateOf);
    if !rate.Parsed? { return; }
    CrCrStable(s, k, rate.pos);
  }

  lemma ParseBatteryChargeStable(s: string, k: nat, i: nat)
    requires i <= k <= |s|
    ensures Stable(ParseBatteryCharge(s[..k], i), ParseBatteryCharge(s, i))
  {
    var p := s[..k];
    TagStable("+CBC: ", s, k, i);
    var t := Tag("+CBC: ", p, i);
    if !t.Parsed? { return; }
    FieldStable(BatteryChargeStatusOf, s, k, t.pos);
    var status := Coded(Unsigned(0xFF, p, t.pos), BatteryChargeStatusOf);
    if !status.Parsed? { return; }
    CharStable(',', s, k, status.pos);
    var comma1 := Char(',', p, status.pos);
    if !comma1.Parsed? { return; }
    UnsignedStable(0xFF, s, k, comma1.pos);
    var level := Unsigned(0xFF, p, comma1.pos);
    if !level.Parsed? { return; }
    CharStable(',', s, k, level.pos);
    var comma2 := Char(',', p, level.pos);
    if !comma2.Parsed? { return; }
    UnsignedStable(0xFFFF, s, k, comma2.pos);
    var voltage := Unsigned(0xFFFF, p, comma2.pos);
    if !voltage.Parsed? { return; }
    CrCrStable(s, k, voltage.pos);
  }

  lemma SmsMessageSenderStable(s: string, k: nat, i: nat)
    requires i <= k <= |s|
    ensures Stable(SmsMessageSender(s[..k], i), SmsMessageSender(s, i))
  {
    var p := s[..k];
    CharStable(',', s, k, i);
    var comma1 := Char(',', p, i);
    if !comma1.Parsed? { return; }
    QuotedHexStable(s, k, comma1.pos);
    var address := QuotedHex(p, comma1.pos);
    if !address.Parsed? { return; }
    CharStable(',', s, k, address.pos);
    var comma2 := Char(',', p, address.pos);
    if !comma2.Parsed? { return; }
    QuotedHexStable(s, k, comma2.pos);
    OptionalStable(QuotedHex(p, comma2.pos), QuotedHex(s, comma2.pos), comma2.pos);
    var name := Optional(QuotedHex(p, comma2.pos), comma2.pos);
    if !name.Parsed? { return; }
    CharStable(',', s, k, name.pos);
  }

  lemma SmsMessageTextStable(s: string, k: nat, i: nat)
    requires i <= k <= |s|
    ensures Stable(SmsMessageText(s[..k], i), SmsMessageText(s, i))
  {
    var p := s[..k];
    CharStable('\r', s, k, i);
    var cr := Char('\r', p, i);
    if !cr.Parsed? { return; }
    StringHexStable(s, k, cr.pos);
    var text := StringHex(p, cr.pos);
    if !text.Parsed? { return; }
    CrCrStable(s, k, text.pos);
  }

  lemma SmsMessageContentStable(s: string, k: nat, i: nat)
    requires i <= k <= |s|
    ensures Stable(SmsMessageContent(s[..k], i), SmsMessageContent(s, i))
  {
    TimestampStable(s, k, i);
    var timestamp := Timestamp(s[..k], i);
    if !timestamp.Parsed? { return; }
    SmsMessageTextStable(s, k, timestamp.pos);
  }

  lemma SmsMessageBodyStable(s: string, k: nat, i: nat)
    requires i <= k <= |s|
    ensures Stable(SmsMessageBody(s[..k], i), SmsMessageBody(s, i))
  {
    SmsMessageSenderStable(s, k, i);
    var sender := SmsMessageSender(s[..k], i);
    if !sender.Parsed? { return; }
    SmsMessageContentStable(s, k, sender.pos);
  }

  lemma ParseListSmsMessagesStable(s: string, k: nat, i: nat)
    requires i <= k <= |s|
    ensures Stable(ParseListSmsMessages(s[..k], i), ParseListSmsMessages(s, i))
  {
    var p := s[..k];
    TagStable("+CMGL: ", s, k, i);
    var t := Tag("+CMGL: ", p, i);
    if !t.Parsed? { return; }
    UnsignedStable(0xFFFF, s, k, t.pos);
    var index := Unsigned(0xFFFF, p, t.pos);
    if !index.Parsed? { return; }
    CharStable(',', s, k, index.pos);
    var comma := Char(',', p, index.pos);
    if !comma.Parsed? { return; }
    SmsStatusStable(s, k, comma.pos);
    var status := SmsStatus(p, comma.pos);
    if !status.Parsed? { return; }
    SmsMessageBodyStable(s, k, status.pos);
  }

  lemma ParseReadSmsMessagesStable(s: string, k: nat, i: nat)
    requires i <= k <= |s|
    ensures Stable(ParseReadSmsMessages(s[..k], i), ParseReadSmsMessages(s, i))
  {
    var p := s[..k];
    TagStable("+CMGR: ", s, k, i);
    var t := Tag("+CMGR: ", p, i);
    if !t.Parsed? { return; }
    SmsStatusStable(s, k, t.pos);
    var status := SmsStatus(p, t.pos);
    if !status.Parsed? { return; }
    SmsMessageBodyStable(s, k, status.pos);
  }

  lemma ParseNewSmsMessagesStable(s: string, k: nat, i: nat)
    requires i <= k <= |s|
    ensures Stable(ParseNewSmsMessages(s[..k], i), ParseNewSmsMessages(s, i))
  {
    var p := s[..k];
    TagStable("+CMTI: ", s, k, i);
    var t := Tag("+CMTI: ", p, i);
    if !t.Parsed? { return; }
    SmsStorageStable(s, k, t.pos);
    var storage := SmsStorage(p, t.pos);
    if !storage.Parsed? { return; }
    CharStable(',', s, k, storage.pos);
    var comma := Char(',', p, storage.pos);
    if !comma.Parsed? { return; }
    UnsignedStable(0xFFFF, s, k, comma.pos);
    var index := Unsigned(0xFFFF, p, comma.pos);
    if !index.Parsed? { return; }
    CharStable('\r', s, k, index.pos);
  }

  lemma CallCodesStable(s: string, k: nat, i: nat)
    requires i <= k <= |s|
    ensures Stable(CallCodes(s[..k], i), CallCodes(s, i))
  {
    var p := s[..k];
    CharStable(',', s, k, i);
    var comma1 := Char(',', p, i);
    if !comma1.Parsed? { return; }
    FieldStable(CallDirectionOf, s, k, comma1.pos);
    var direction := Coded(Unsigned(0xFF, p, comma1.pos), CallDirectionOf);
    if !direction.Parsed? { return; }
    CharStable(',', s, k, direction.pos);
    var comma2 := Char(',', p, direction.pos);
    if !comma2.Parsed? { return; }
    FieldStable(CallStateOf, s, k, comma2.pos);
    var state := Coded(Unsigned(0xFF, p, comma2.pos), CallStateOf);
    if !state.Parsed? { return; }
    CharStable(',', s, k, state.pos);
    var comma3 := Char(',', p, state.pos);
    if !comma3.Parsed? { return; }
    FieldStable(CallModeOf, s, k, comma3.pos);
    var mode := Coded(Unsigned(0xFF, p, comma3.pos), CallModeOf);
    if !mode.Parsed? { return; }
    CharStable(',', s, k, mode.pos);
    var comma4 := Char(',', p, mode.pos);
    if !comma4.Parsed? { return; }
    FieldStable(CallMultipartyOf, s, k, comma4.pos);
  }

  lemma CallArgsStable(s: string, k: nat, i: nat)
    requires i <= k <= |s|
    ensures Stable(CallArgs(s[..k], i), CallArgs(s, i))
  {
    var p := s[..k];
    CharStable(',', s, k, i);
    var comma1 := Char(',', p, i);
    if !comma1.Parsed? { return; }
    QuotedTextStable(s, k, comma1.pos);
    var number := QuotedText(p, comma1.pos);
    if !number.Parsed? { return; }
    CharStable(',', s, k, number.pos);
    var comma2 := Char(',', p, number.pos);
    if !comma2.Parsed? { return; }
    UnsignedStable(0xFFFF, s, k, comma2.pos);
    var numberType := Unsigned(0xFFFF, p, comma2.pos);
    if !numberType.Parsed? { return; }
    CharStable(',', s, k, numberType.pos);
    var comma3 := Char(',', p, numberType.pos);
    if !comma3.Parsed? { return; }
    QuotedTextStable(s, k, comma3.pos);
  }

  lemma ParseListCurrentCallsStable(s: string, k: nat, i: nat)
    requires i <= k <= |s|
    ensures Stable(ParseListCurrentCalls(s[..k], i), ParseListCurrentCalls(s, i))
  {
    var p := s[..k];
    TagStable("+CLCC: ", s, k, i);
    var t := Tag("+CLCC: ", p, i);
    if !t.Parsed? { return; }
    UnsignedStable(0xFFFF, s, k, t.pos);
    var index := Unsigned(0xFFFF, p, t.pos);
    if !index.Parsed? { return; }
    CallCodesStable(s, k, index.pos);
    var codes := CallCodes(p, index.pos);
    if !codes.Parsed? { return; }
    CallArgsStable(s, k, codes.pos);
    OptionalStable(CallArgs(p, codes.pos), CallArgs(s, codes.pos), codes.pos);
    var args := Optional(CallArgs(p, codes.pos), codes.pos);
    if !args.Parsed? { return; }
    CrCrStable(s, k, args.pos);
  }

  lemma AltStable(a: Outcome<Response>, b: Outcome<Response>, c: Outcome<Response>, d: Outcome<Response>)
    requires Stable(a, b) && Stable(c, d)
    ensures Stable(Alt(a, c), Alt(b, d))
  {
  }

  lemma Alternatives1Stable(s: string, k: nat, i: nat)
    requires i <= k <= |s|
    ensures Stable(Alternatives1(s[..k], i), Alternatives1(s, i))
  {
    var p := s[..k];
    LiteralStable("OK\r", Ok, s, k, i);
    LiteralStable("ERROR\r", Error(Disabled), s, k, i);
    ParseErrorCodeStable(s, k, i);
    ParseErrorMessageStable(s, k, i);
    LiteralStable("Call Ready\r", CallReady, s, k, i);
    AltStable(ParseErrorMessage(p, i), ParseErrorMessage(s, i), ParseCallReady(p, i), ParseCallReady(s, i));
    var a4, b4 := Alt(ParseErrorMessage(p, i), ParseCallReady(p, i)), Alt(ParseErrorMessage(s, i), ParseCallReady(s, i));
    AltStable(ParseErrorCode(p, i), ParseErrorCode(s, i), a4, b4);
    var a3, b3 := Alt(ParseErrorCode(p, i), a4), Alt(ParseErrorCode(s, i), b4);
    AltStable(ParseError(p, i), ParseError(s, i), a3, b3);
    var a2, b2 := Alt(ParseError(p, i), a3), Alt(ParseError(s, i), b3);
    AltStable(ParseOk(p, i), ParseOk(s, i), a2, b2);
  }

  lemma Alternatives2Stable(s: string, k: nat, i: nat)
    requires i <= k <= |s|
    ensures Stable(Alternatives2(s[..k], i), Alternatives2(s, i))
  {
    var p := s[..k];
    LiteralStable("SMS Ready\r", SmsReady, s, k, i);
    LiteralStable("RING\r", Ring, s, k, i);
    LiteralStable("NO CARRIER\r", NoCarrier, s, k, i);
    ParseOperatorSelectionStable(s, k, i);
    ParseNetworkRegistrationStable(s, k, i);
    AltStable(ParseOperatorSelection(p, i), ParseOperatorSelection(s, i), ParseNetworkRegistration(p, i), ParseNetworkRegistration(s, i));
    var a4, b4 := Alt(ParseOperatorSelection(p, i), ParseNetworkRegistration(p, i)), Alt(ParseOperatorSelection(s, i), ParseNetworkRegistration(s, i));
    AltStable(ParseNoCarrier(p, i), ParseNoCarrier(s, i), a4, b4);
    var a3, b3 := Alt(ParseNoCarrier(p, i), a4), Alt(ParseNoCarrier(s, i), b4);
    AltStable(ParseRing(p, i), ParseRing(s, i), a3, b3);
    var a2, b2 := Alt(ParseRing(p, i), a3), Alt(ParseRing(s, i), b3);
    AltStable(ParseSmsReady(p, i), ParseSmsReady(s, i), a2, b2);
  }

  lemma Alternatives3Stable(s: string, k: nat, i: nat)
    requires i <= k <= |s|
    ensures Stable(Alternatives3(s[..k], i), Alternatives3(s, i))
  {
    var p := s[..k];
    ParsePhoneActivityStatusStable(s, k, i);
    ParseSignalQualityStable(s, k, i);
    ParseBatteryChargeStable(s, k, i);
    ParseListSmsMessagesStable(s, k, i);
    AltStable(ParseBatteryCharge(p, i), ParseBatteryCharge(s, i), ParseListSmsMessages(p, i), ParseListSmsMessages(s, i));
    var a3, b3 := Alt(ParseBatteryCharge(p, i), ParseListSmsMessages(p, i)), Alt(ParseBatteryCharge(s, i), ParseListSmsMessages(s, i));
    AltStable(ParseSignalQuality(p, i), ParseSignalQuality(s, i), a3, b3);
    var a2, b2 := Alt(ParseSignalQuality(p, i), a3), Alt(ParseSignalQuality(s, i), b3);
    AltStable(ParsePhoneActivityStatus(p, i), ParsePhoneActivityStatus(s, i), a2, b2);
  }

  lemma Alternatives4Stable(s: string, k: nat, i: nat)
    requires i <= k <= |s|
    ensures Stable(Alternatives4(s[..k], i), Alternatives4(s, i))
  {
    var p := s[..k];
    ParseReadSmsMessagesStable(s, k, i);
    ParseNewSmsMessagesStable(s, k, i);
    ParseListCurrentCallsStable(s, k, i);
    CharStable('\r', s, k, i);
    AltStable(ParseListCurrentCalls(p, i), ParseListCurrentCalls(s, i), ParseEmpty(p, i), ParseEmpty(s, i));
    var a3, b3 := Alt(ParseListCurrentCalls(p, i), ParseEmpty(p, i)), Alt(ParseListCurrentCalls(s, i), ParseEmpty(s, i));
    AltStable(ParseNewSmsMessages(p, i), ParseNewSmsMessages(s, i), a3, b3);
    var a2, b2 := Alt(ParseNewSmsMessages(p, i), a3), Alt(ParseNewSmsMessages(s, i), b3);
    AltStable(ParseReadSmsMessages(p, i), ParseReadSmsMessages(s, i), a2, b2);
  }

  /** `parser()` as a whole keeps the streaming contract. */
  lemma ResponseAtStable(s: string, k: nat, i: nat)
    requires i <= k <= |s|
    ensures Stable(ResponseAt(s[..k], i), ResponseAt(s, i))
  {
    var p := s[..k];
    Alternatives1Stable(s, k, i);
    Alternatives2Stable(s, k, i);
    Alternatives3Stable(s, k, i);
    Alternatives4Stable(s, k, i);
    AltStable(Alternatives3(p, i), Alternatives3(s, i), Alternatives4(p, i), Alternatives4(s, i));
    var a3, b3 := Alt(Alternatives3(p, i), Alternatives4(p, i)), Alt(Alternatives3(s, i), Alternatives4(s, i));
    AltStable(Alternatives2(p, i), Alternatives2(s, i), a3, b3);
    var a2, b2 := Alt(Alternatives2(p, i), a3), Alt(Alternatives2(s, i), b3);
    AltStable(Alternatives1(p, i), Alternatives1(s, i), a2, b2);
  }
}
