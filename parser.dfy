/**
  The response grammar of src/parser.rs: one parser per response kind, the
  ordered alternation `parser()`, and `parse`.

  Every parser reads the buffer `s` from position `i` with the streaming
  behaviour of the primitives in `Streaming`; `Parsed(v, pos)` means the
  frame `s[i..pos]` was recognised as `v`.
*/
module Parser {

  import opened Base
  import opened Streaming
  import opened Codes
  import opened Calendar
  import opened Responses
  import Ucs2

  /** The frame `s[i..pos]` ends with two carriage returns. */
  predicate DoubleCr(s: string, i: nat, pos: nat) {
    i + 2 <= pos <= |s| && s[pos - 2] == '\r' && s[pos - 1] == '\r'
  }

  /** The frame `s[i..pos]` ends with one carriage return that is not doubled inside the frame. */
  predicate SingleCr(s: string, i: nat, pos: nat) {
    i < pos <= |s| && s[pos - 1] == '\r' && (pos - 1 == i || s[pos - 2] != '\r')
  }

  /** How a recognised frame is terminated: doubled for status lines and listings, single otherwise. */
  predicate FrameEnd(s: string, i: nat, pos: nat, v: Response) {
    if IsStatusLine(v) then DoubleCr(s, i, pos) else SingleCr(s, i, pos)
  }

  // ---------------------------------------------------------------------
  // Fields

  /** `tag("\r\r")`, the terminator of the status lines. */
  function CrCr(s: string, i: nat): (r: Outcome<()>)
    requires i <= |s|
    ensures !r.Violation?
    ensures r.Parsed? ==> r.pos == i + 2 <= |s| && s[i] == '\r' && s[i + 1] == '\r'
  {
    TagMeaning("\r\r", s, i);
    Tag("\r\r", s, i)
  }

  /**
    `parse_quoted_text`: either the empty quotes `""`, whose value is the
    matched text itself (the two quote characters), or a non-empty run of
    characters other than a quote between quotes.
  */
  function QuotedText(s: string, i: nat): (r: Outcome<string>)
    requires i <= |s|
    ensures Consumes(r, s, i) && !r.Violation?
  {
    var empty := Tag("\"\"", s, i);
    if empty.Parsed? then Parsed("\"\"", empty.pos)
    else if empty.Short? then Short
    else
      var quote :- Char('"', s, i);
      var body :- IsNot(NotQuote, s, quote.pos);
      // `is_not` stopped at a quote, which the closing `char('"')` consumes.
      Parsed(body.value, body.pos + 1)
  }

  /** `parse_quoted_hex`: hex digits between quotes, decoded as UCS2 text. */
  function QuotedHex(s: string, i: nat): (r: Outcome<string>)
    requires i <= |s|
    ensures Consumes(r, s, i) && !r.Violation?
  {
    var quote :- Char('"', s, i);
    var digits :- HexDigits(s, quote.pos);
    var close :- Char('"', s, digits.pos);
    Parsed(Ucs2.Decode(digits.value), close.pos)
  }

  /** `parse_string_hex`: bare hex digits, decoded as UCS2 text. */
  function StringHex(s: string, i: nat): (r: Outcome<string>)
    requires i <= |s|
    ensures Within(r, s, i) && !r.Violation?
    ensures r.Parsed? ==> r.pos < |s|
  {
    var digits :- HexDigits(s, i);
    Parsed(Ucs2.Decode(digits.value), digits.pos)
  }

  /**
    The tuple of `parse_timestamp`: `"YY/MM/DD,HH:MM:SS±ZZ"`, with the
    year taken as 2000 plus the signed 16-bit field and the signed 8-bit
    zone field parsed and dropped. The fields are not yet checked.
  */
  function TimestampFields(s: string, i: nat): (r: Outcome<UtcDateTime>)
    requires i <= |s|
    ensures Consumes(r, s, i) && !r.Violation?
  {
    var quote :- Char('"', s, i);
    var year :- Signed(-0x8000, 0x7FFF, s, quote.pos);
    var slash1 :- Char('/', s, year.pos);
    var month :- Unsigned(0xFF, s, slash1.pos);
    var slash2 :- Char('/', s, month.pos);
    var day :- Unsigned(0xFF, s, slash2.pos);
    var comma :- Char(',', s, day.pos);
    var hour :- Unsigned(0xFF, s, comma.pos);
    var colon1 :- Char(':', s, hour.pos);
    var minute :- Unsigned(0xFF, s, colon1.pos);
    var colon2 :- Char(':', s, minute.pos);
    var second :- Unsigned(0xFF, s, colon2.pos);
    var zone :- Signed(-0x80, 0x7F, s, second.pos);
    var close :- Char('"', s, zone.pos);
    Parsed(UtcDateTime(2000 + year.value, month.value, day.value, hour.value, minute.value, second.value), close.pos)
  }

  /**
    `parse_timestamp`: the fields, checked as a calendar date and a time
    of day and labelled UTC; a date or time out of range makes the field
    fail to match.
  */
  function Timestamp(s: string, i: nat): (r: Outcome<UtcDateTime>)
    requires i <= |s|
    ensures Consumes(r, s, i) && !r.Violation?
    ensures r.Parsed? ==> Valid(r.value)
  {
    var fields :- TimestampFields(s, i);
    var f := fields.value;
    match NewUtc(f.year, f.month, f.day, f.hour, f.minute, f.second)
    case Some(t) => Parsed(t, fields.pos)
    case None => Mismatch
  }

  /** A `u8` field mapped through a code table; a code without an entry is a protocol violation. */
  function Coded<E>(n: Outcome<nat>, table: uint8 -> Option<E>): (r: Outcome<E>)
    requires n.Parsed? ==> n.value < 0x100
    ensures r.Parsed? ==> n.Parsed? && r.pos == n.pos && table(n.value as uint8) == Some(r.value)
    ensures r.Violation? <==> n.Violation? || (n.Parsed? && table(n.value as uint8).None?)
    ensures r.Short? <==> n.Short?
  {
    match n
    case Parsed(v, p) =>
      (match table(v as uint8)
       case Some(e) => Parsed(e, p)
       case None => Violation)
    case Short => Short
    case Mismatch => Mismatch
    case Violation => Violation
  }

  /** A quoted text mapped through a table of names; a name without an entry is a protocol violation. */
  function Named<E>(text: Outcome<string>, table: string -> Option<E>): (r: Outcome<E>)
    ensures r.Parsed? ==> text.Parsed? && r.pos == text.pos && table(text.value) == Some(r.value)
    ensures r.Violation? <==> text.Violation? || (text.Parsed? && table(text.value).None?)
    ensures r.Short? <==> text.Short?
  {
    match text
    case Parsed(v, p) =>
      (match table(v)
       case Some(e) => Parsed(e, p)
       case None => Violation)
    case Short => Short
    case Mismatch => Mismatch
    case Violation => Violation
  }

  /** `parse_sms_messages_status`: a quoted status text mapped through its table. */
  function SmsStatus(s: string, i: nat): (r: Outcome<SmsMessageStatus>)
    requires i <= |s|
    ensures Consumes(r, s, i)
  {
    Named(QuotedText(s, i), SmsMessageStatusOf)
  }

  /** `parse_sms_message_storage`: a quoted storage name mapped through its table. */
  function SmsStorage(s: string, i: nat): (r: Outcome<SmsMessageStorage>)
    requires i <= |s|
    ensures Consumes(r, s, i)
  {
    Named(QuotedText(s, i), SmsMessageStorageOf)
  }

  // ---------------------------------------------------------------------
  // Responses

  /** A response that is a fixed text. */
  function Literal(w: string, v: Response, s: string, i: nat): (r: Outcome<Response>)
    requires i <= |s|
    ensures Within(r, s, i) && !r.Violation?
    ensures r.Parsed? ==> r.value == v && s[i..r.pos] == w
  {
    TagMeaning(w, s, i);
    var t :- Tag(w, s, i);
    Parsed(v, t.pos)
  }

  function ParseOk(s: string, i: nat): (r: Outcome<Response>)
    requires i <= |s|
    ensures Consumes(r, s, i) && (r.Parsed? ==> r.value == Ok && SingleCr(s, i, r.pos))
  {
    Literal("OK\r", Ok, s, i)
  }

  function ParseError(s: string, i: nat): (r: Outcome<Response>)
    requires i <= |s|
    ensures Consumes(r, s, i) && (r.Parsed? ==> r.value == Error(Disabled) && SingleCr(s, i, r.pos))
  {
    Literal("ERROR\r", Error(Disabled), s, i)
  }

  /** The tag that introduces an equipment error of each source. */
  function ErrorPrefix(source: EquipmentErrorSource): (w: string)
    ensures |w| == 12 && w[..3] == "+CM" && w[4..] == " ERROR: "
    ensures w[3] == (if source == Mobile then 'E' else 'S')
  {
    match source
    case Mobile => "+CME ERROR: "
    case Service => "+CMS ERROR: "
  }

  /**
    `tag(prefix), u16, char('\r')`: an error with a numeric code, whose code
    is the decimal value of the digits between the tag and the carriage
    return.
  */
  function CodedError(prefix: string, source: EquipmentErrorSource, s: string, i: nat): (r: Outcome<Response>)
    requires i <= |s|
    ensures Consumes(r, s, i) && !r.Violation?
    ensures r.Parsed? ==> r.value.Error? && r.value.error.Code? && r.value.error.source == source
    ensures r.Parsed? ==> SingleCr(s, i, r.pos)
    ensures r.Parsed? ==>
      && i + |prefix| < r.pos - 1 && s[i..i + |prefix|] == prefix
      && AllDigits(s[i + |prefix|..r.pos - 1]) && r.value.error.code as nat == Decimal(s[i + |prefix|..r.pos - 1])
  {
    var t :- Tag(prefix, s, i);
    var code :- Unsigned(0xFFFF, s, t.pos);
    var cr :- Char('\r', s, code.pos);
    TagMeaning(prefix, s, i);
    UnsignedMeaning(0xFFFF, s, t.pos);
    Parsed(Error(Code(source, code.value as uint16)), cr.pos)
  }

  /** `parse_error_code`: the equipment error first, then the service error. */
  function ParseErrorCode(s: string, i: nat): (r: Outcome<Response>)
    requires i <= |s|
    ensures Consumes(r, s, i) && !r.Violation?
    ensures r.Parsed? ==> r.value.Error? && r.value.error.Code? && SingleCr(s, i, r.pos)
  {
    var mobile := CodedError("+CME ERROR: ", Mobile, s, i);
    if !mobile.Mismatch? then mobile else CodedError("+CMS ERROR: ", Service, s, i)
  }

  /**
    `tag(prefix), is_not("\r"), char('\r')`: an error with a text, the
    non-empty text between the tag and the first carriage return.
  */
  function MessageError(prefix: string, source: EquipmentErrorSource, s: string, i: nat): (r: Outcome<Response>)
    requires i <= |s|
    ensures Consumes(r, s, i) && !r.Violation?
    ensures r.Parsed? ==> r.value.Error? && r.value.error.Message? && r.value.error.source == source
    ensures r.Parsed? ==> SingleCr(s, i, r.pos)
    ensures r.Parsed? ==>
      && i + |prefix| < r.pos - 1 && s[i..i + |prefix|] == prefix
      && r.value.error.message == s[i + |prefix|..r.pos - 1] && '\r' !in r.value.error.message
  {
    var t :- Tag(prefix, s, i);
    TagMeaning(prefix, s, i);
    var message :- IsNot(NotCarriageReturn, s, t.pos);
    // `is_not` stopped at a carriage return, which `char('\r')` consumes.
    Parsed(Error(Message(source, message.value)), message.pos + 1)
  }

  /** `parse_error_message`: the equipment error first, then the service error. */
  function ParseErrorMessage(s: string, i: nat): (r: Outcome<Response>)
    requires i <= |s|
    ensures Consumes(r, s, i) && !r.Violation?
    ensures r.Parsed? ==> r.value.Error? && r.value.error.Message? && SingleCr(s, i, r.pos)
  {
    var mobile := MessageError("+CME ERROR: ", Mobile, s, i);
    if !mobile.Mismatch? then mobile else MessageError("+CMS ERROR: ", Service, s, i)
  }

  /**
    A numeric error `parse_error_code` reads opens with the tag of its
    source, and its code is the decimal value of the digits between the tag
    and the carriage return.
  */
  lemma ParseErrorCodeMeaning(s: string, i: nat)
    requires i <= |s|
    ensures var r := ParseErrorCode(s, i);
      r.Parsed? ==>
        && i + 12 < r.pos - 1 && s[i..i + 12] == ErrorPrefix(r.value.error.source)
        && AllDigits(s[i + 12..r.pos - 1]) && r.value.error.code as nat == Decimal(s[i + 12..r.pos - 1])
  {
  }

  /**
    A text error `parse_error_message` reads opens with the tag of its
    source, and its text is everything between the tag and the first
    carriage return.
  */
  lemma ParseErrorMessageMeaning(s: string, i: nat)
    requires i <= |s|
    ensures var r := ParseErrorMessage(s, i);
      r.Parsed? ==>
        && i + 12 < r.pos - 1 && s[i..i + 12] == ErrorPrefix(r.value.error.source)
        && r.value.error.message == s[i + 12..r.pos - 1] && '\r' !in r.value.error.message
  {
  }

  function ParseCallReady(s: string, i: nat): (r: Outcome<Response>)
    requires i <= |s|
    ensures Consumes(r, s, i) && (r.Parsed? ==> r.value == CallReady && SingleCr(s, i, r.pos))
  {
    Literal("Call Ready\r", CallReady, s, i)
  }

  function ParseSmsReady(s: string, i: nat): (r: Outcome<Response>)
    requires i <= |s|
    ensures Consumes(r, s, i) && (r.Parsed? ==> r.value == SmsReady && SingleCr(s, i, r.pos))
  {
    Literal("SMS Ready\r", SmsReady, s, i)
  }

  function ParseRing(s: string, i: nat): (r: Outcome<Response>)
    requires i <= |s|
    ensures Consumes(r, s, i) && (r.Parsed? ==> r.value == Ring && SingleCr(s, i, r.pos))
  {
    Literal("RING\r", Ring, s, i)
  }

  function ParseNoCarrier(s: string, i: nat): (r: Outcome<Response>)
    requires i <= |s|
    ensures Consumes(r, s, i) && (r.Parsed? ==> r.value == NoCarrier && SingleCr(s, i, r.pos))
  {
    Literal("NO CARRIER\r", NoCarrier, s, i)
  }

  /** The optional `,<format>,<operator>` group of `+COPS`. */
  datatype OperatorFields = OperatorFields(format: uint8, operator: string)

  function OperatorArgs(s: string, i: nat): (r: Outcome<OperatorFields>)
    requires i <= |s|
    ensures Consumes(r, s, i) && !r.Violation?
  {
    var comma1 :- Char(',', s, i);
    var format :- Unsigned(0xFF, s, comma1.pos);
    var comma2 :- Char(',', s, format.pos);
    var operator :- QuotedText(s, comma2.pos);
    Parsed(OperatorFields(format.value as uint8, operator.value), operator.pos)
  }

  /**
    `parse_operator_selection`. The format code is converted by the final
    mapping, so an unknown format is a violation only once the whole line,
    terminator included, has matched.
  */
  function ParseOperatorSelection(s: string, i: nat): (r: Outcome<Response>)
    requires i <= |s|
    ensures Consumes(r, s, i)
    ensures r.Parsed? ==> r.value.OperatorSelection? && DoubleCr(s, i, r.pos)
  {
    var t :- Tag("+COPS: ", s, i);
    var mode :- Coded(Unsigned(0xFF, s, t.pos), OperatorSelectionModeOf);
    var args :- Optional(OperatorArgs(s, mode.pos), mode.pos);
    var end :- CrCr(s, args.pos);
    match args.value
    case None => Parsed(OperatorSelection(mode.value, None, None), end.pos)
    case Some(a) =>
      match OperatorSelectionFormatOf(a.format)
      case Some(f) => Parsed(OperatorSelection(mode.value, Some(f), Some(a.operator)), end.pos)
      case None => Violation
  }

  /** The optional `,<location>,<cell>` group of `+CREG`. */
  datatype LocationFields = LocationFields(location: string, cellId: string)

  function LocationArgs(s: string, i: nat): (r: Outcome<LocationFields>)
    requires i <= |s|
    ensures Consumes(r, s, i) && !r.Violation?
  {
    var comma1 :- Char(',', s, i);
    var location :- QuotedText(s, comma1.pos);
    var comma2 :- Char(',', s, location.pos);
    var cell :- QuotedText(s, comma2.pos);
    Parsed(LocationFields(location.value, cell.value), cell.pos)
  }

  function ParseNetworkRegistration(s: string, i: nat): (r: Outcome<Response>)
    requires i <= |s|
    ensures Consumes(r, s, i)
    ensures r.Parsed? ==> r.value.NetworkRegistration? && DoubleCr(s, i, r.pos)
  {
    var t :- Tag("+CREG: ", s, i);
    var mode :- Coded(Unsigned(0xFF, s, t.pos), NetworkRegistrationModeOf);
    var comma :- Char(',', s, mode.pos);
    var status :- Coded(Unsigned(0xFF, s, comma.pos), NetworkRegistrationStatusOf);
    var args :- Optional(LocationArgs(s, status.pos), status.pos);
    var end :- CrCr(s, args.pos);
    match args.value
    case None => Parsed(NetworkRegistration(mode.value, status.value, None, None), end.pos)
    case Some(a) => Parsed(NetworkRegistration(mode.value, status.value, Some(a.location), Some(a.cellId)), end.pos)
  }

  function ParsePhoneActivityStatus(s: string, i: nat): (r: Outcome<Response>)
    requires i <= |s|
    ensures Consumes(r, s, i)
    ensures r.Parsed? ==> r.value.PhoneActivity? && DoubleCr(s, i, r.pos)
  {
    var t :- Tag("+CPAS: ", s, i);
    var status :- Coded(Unsigned(0xFF, s, t.pos), PhoneActivityStatusOf);
    var end :- CrCr(s, status.pos);
    Parsed(PhoneActivity(status.value), end.pos)
  }

  function ParseSignalQuality(s: string, i: nat): (r: Outcome<Response>)
    requires i <= |s|
    ensures Consumes(r, s, i)
    ensures r.Parsed? ==> r.value.SignalQuality? && DoubleCr(s, i, r.pos)
  {
    var t :- Tag("+CSQ: ", s, i);
    var rssi :- Coded(Unsigned(0xFF, s, t.pos), SignalQualityRssiOf);
    var comma :- Char(',', s, rssi.pos);
    var rate :- Coded(Unsigned(0xFF, s, comma.pos), SignalQualityErrorRateOf);
    var end :- CrCr(s, rate.pos);
    Parsed(SignalQuality(rssi.value, rate.value), end.pos)
  }

  function ParseBatteryCharge(s: string, i: nat): (r: Outcome<Response>)
    requires i <= |s|
    ensures Consumes(r, s, i)
    ensures r.Parsed? ==> r.value.BatteryCharge? && DoubleCr(s, i, r.pos)
  {
    var t :- Tag("+CBC: ", s, i);
    var status :- Coded(Unsigned(0xFF, s, t.pos), BatteryChargeStatusOf);
    var comma1 :- Char(',', s, status.pos);
    var level :- Unsigned(0xFF, s, comma1.pos);
    var comma2 :- Char(',', s, level.pos);
    var voltage :- Unsigned(0xFFFF, s, comma2.pos);
    var end :- CrCr(s, voltage.pos);
    Parsed(BatteryCharge(status.value, level.value as uint8, voltage.value as uint16), end.pos)
  }

  /** The fields shared by `+CMGL` and `+CMGR` after the status. */
  datatype SmsBody = SmsBody(address: string, addressText: Option<string>, timestamp: UtcDateTime, text: string)

  /** The sender part of the body: the address and the optional name. */
  datatype SmsSender = SmsSender(address: string, addressText: Option<string>)

  /** `,<address>,[<name>],`: the quoted hex address and an optional quoted hex name. */
  function SmsMessageSender(s: string, i: nat): (r: Outcome<SmsSender>)
    requires i <= |s|
    ensures Consumes(r, s, i) && !r.Violation?
  {
    var comma1 :- Char(',', s, i);
    var address :- QuotedHex(s, comma1.pos);
    var comma2 :- Char(',', s, address.pos);
    var name :- Optional(QuotedHex(s, comma2.pos), comma2.pos);
    var comma3 :- Char(',', s, name.pos);
    Parsed(SmsSender(address.value, name.value), comma3.pos)
  }

  /** The content part of the body: the timestamp and the text. */
  datatype SmsContent = SmsContent(timestamp: UtcDateTime, text: string)

  /** `\r<text>\r\r`: after a carriage return, the hex text of the message and the terminator. */
  function SmsMessageText(s: string, i: nat): (r: Outcome<string>)
    requires i <= |s|
    ensures Consumes(r, s, i) && !r.Violation?
    ensures r.Parsed? ==> DoubleCr(s, i, r.pos)
  {
    var cr :- Char('\r', s, i);
    var text :- StringHex(s, cr.pos);
    var end :- CrCr(s, text.pos);
    Parsed(text.value, end.pos)
  }

  /** `<timestamp>\r<text>\r\r`: the timestamp, then the text of the message. */
  function SmsMessageContent(s: string, i: nat): (r: Outcome<SmsContent>)
    requires i <= |s|
    ensures Consumes(r, s, i) && !r.Violation?
    ensures r.Parsed? ==> DoubleCr(s, i, r.pos)
  {
    var timestamp :- Timestamp(s, i);
    var text :- SmsMessageText(s, timestamp.pos);
    Parsed(SmsContent(timestamp.value, text.value), text.pos)
  }

  /**
    `,<address>,[<name>],<timestamp>\r<text>\r\r`, the sequence of fields
    that follows the status in both listings, read as its sender part and
    its content part.
  */
  function SmsMessageBody(s: string, i: nat): (r: Outcome<SmsBody>)
    requires i <= |s|
    ensures Consumes(r, s, i) && !r.Violation?
    ensures r.Parsed? ==> DoubleCr(s, i, r.pos)
  {
    var sender :- SmsMessageSender(s, i);
    var content :- SmsMessageContent(s, sender.pos);
    Parsed(SmsBody(sender.value.address, sender.value.addressText, content.value.timestamp, content.value.text), content.pos)
  }

  function ParseListSmsMessages(s: string, i: nat): (r: Outcome<Response>)
    requires i <= |s|
    ensures Consumes(r, s, i)
    ensures r.Parsed? ==> r.value.ListSmsMessage? && DoubleCr(s, i, r.pos)
  {
    var t :- Tag("+CMGL: ", s, i);
    var index :- Unsigned(0xFFFF, s, t.pos);
    var comma :- Char(',', s, index.pos);
    var status :- SmsStatus(s, comma.pos);
    var body :- SmsMessageBody(s, status.pos);
    var b := body.value;
    Parsed(ListSmsMessage(index.value as uint16, status.value, b.address, b.addressText, b.timestamp, b.text), body.pos)
  }

  function ParseReadSmsMessages(s: string, i: nat): (r: Outcome<Response>)
    requires i <= |s|
    ensures Consumes(r, s, i)
    ensures r.Parsed? ==> r.value.ReadSmsMessage? && DoubleCr(s, i, r.pos)
  {
    var t :- Tag("+CMGR: ", s, i);
    var status :- SmsStatus(s, t.pos);
    var body :- SmsMessageBody(s, status.pos);
    var b := body.value;
    Parsed(ReadSmsMessage(status.value, b.address, b.addressText, b.timestamp, b.text), body.pos)
  }

  /** `parse_new_sms_messages`: terminated by a single carriage return. */
  function ParseNewSmsMessages(s: string, i: nat): (r: Outcome<Response>)
    requires i <= |s|
    ensures Consumes(r, s, i)
    ensures r.Parsed? ==> r.value.NewSmsMessage? && SingleCr(s, i, r.pos)
  {
    var t :- Tag("+CMTI: ", s, i);
    var storage :- SmsStorage(s, t.pos);
    var comma :- Char(',', s, storage.pos);
    var index :- Unsigned(0xFFFF, s, comma.pos);
    var cr :- Char('\r', s, index.pos);
    Parsed(NewSmsMessage(storage.value, index.value as uint16), cr.pos)
  }

  /** The optional `,<number>,<type>,<name>` group of `+CLCC`. */
  datatype CallNumber = CallNumber(number: string, numberType: uint16, name: string)

  function CallArgs(s: string, i: nat): (r: Outcome<CallNumber>)
    requires i <= |s|
    ensures Consumes(r, s, i) && !r.Violation?
  {
    var comma1 :- Char(',', s, i);
    var number :- QuotedText(s, comma1.pos);
    var comma2 :- Char(',', s, number.pos);
    var numberType :- Unsigned(0xFFFF, s, comma2.pos);
    var comma3 :- Char(',', s, numberType.pos);
    var name :- QuotedText(s, comma3.pos);
    Parsed(CallNumber(number.value, numberType.value as uint16, name.value), name.pos)
  }

  /** The four coded fields of `+CLCC` after the index. */
  datatype CallFields = CallFields(direction: CallDirection, state: CallState, mode: CallMode, multiparty: CallMultiparty)

  /** `,<direction>,<state>,<mode>,<multiparty>`, each mapped through its code table. */
  function CallCodes(s: string, i: nat): (r: Outcome<CallFields>)
    requires i <= |s|
    ensures Consumes(r, s, i)
  {
    var comma1 :- Char(',', s, i);
    var direction :- Coded(Unsigned(0xFF, s, comma1.pos), CallDirectionOf);
    var comma2 :- Char(',', s, direction.pos);
    var state :- Coded(Unsigned(0xFF, s, comma2.pos), CallStateOf);
    var comma3 :- Char(',', s, state.pos);
    var mode :- Coded(Unsigned(0xFF, s, comma3.pos), CallModeOf);
    var comma4 :- Char(',', s, mode.pos);
    var multiparty :- Coded(Unsigned(0xFF, s, comma4.pos), CallMultipartyOf);
    Parsed(CallFields(direction.value, state.value, mode.value, multiparty.value), multiparty.pos)
  }

  function ParseListCurrentCalls(s: string, i: nat): (r: Outcome<Response>)
    requires i <= |s|
    ensures Consumes(r, s, i)
    ensures r.Parsed? ==> r.value.ListCurrentCalls? && DoubleCr(s, i, r.pos)
  {
    var t :- Tag("+CLCC: ", s, i);
    var index :- Unsigned(0xFFFF, s, t.pos);
    var codes :- CallCodes(s, index.pos);
    var args :- Optional(CallArgs(s, codes.pos), codes.pos);
    var end :- CrCr(s, args.pos);
    var c := codes.value;
    var call := ListCurrentCalls(index.value as uint16, c.direction, c.state, c.mode, c.multiparty, None, None, None);
    match args.value
    case None => Parsed(call, end.pos)
    case Some(n) => Parsed(call.(number := Some(n.number), numberType := Some(n.numberType), name := Some(n.name)), end.pos)
  }

  /** `parse_empty`: a lone carriage return. */
  function ParseEmpty(s: string, i: nat): (r: Outcome<Response>)
    requires i <= |s|
    ensures Consumes(r, s, i) && (r.Parsed? ==> r.value == Empty && SingleCr(s, i, r.pos))
  {
    var cr :- Char('\r', s, i);
    Parsed(Empty, cr.pos)
  }

  /** The first of two outcomes unless it mismatches: the choice made by nom's `alt`. */
  function Alt(first: Outcome<Response>, second: Outcome<Response>): (r: Outcome<Response>)
    ensures r == first || (first.Mismatch? && r == second)
  {
    if !first.Mismatch? then first else second
  }

  /** A recognised response frame at `i`, ended as `FrameEnd` says. */
  predicate Framed(r: Outcome<Response>, s: string, i: nat) {
    Consumes(r, s, i) && (r.Parsed? ==> FrameEnd(s, i, r.pos, r.value))
  }

  /** Alternatives 1 to 5 of `parser()`: the final results and the error lines. */
  function Alternatives1(s: string, i: nat): (r: Outcome<Response>)
    requires i <= |s|
    ensures Framed(r, s, i)
  {
    Alt(ParseOk(s, i),
    Alt(ParseError(s, i),
    Alt(ParseErrorCode(s, i),
    Alt(ParseErrorMessage(s, i),
        ParseCallReady(s, i)))))
  }

  /** Alternatives 6 to 10 of `parser()`. */
  function Alternatives2(s: string, i: nat): (r: Outcome<Response>)
    requires i <= |s|
    ensures Framed(r, s, i)
  {
    Alt(ParseSmsReady(s, i),
    Alt(ParseRing(s, i),
    Alt(ParseNoCarrier(s, i),
    Alt(ParseOperatorSelection(s, i),
        ParseNetworkRegistration(s, i)))))
  }

  /** Alternatives 11 to 14 of `parser()`. */
  function Alternatives3(s: string, i: nat): (r: Outcome<Response>)
    requires i <= |s|
    ensures Framed(r, s, i)
  {
    Alt(ParsePhoneActivityStatus(s, i),
    Alt(ParseSignalQuality(s, i),
    Alt(ParseBatteryCharge(s, i),
        ParseListSmsMessages(s, i))))
  }

  /** Alternatives 15 to 18 of `parser()`, the last being the empty line. */
  function Alternatives4(s: string, i: nat): (r: Outcome<Response>)
    requires i <= |s|
    ensures Framed(r, s, i)
  {
    Alt(ParseReadSmsMessages(s, i),
    Alt(ParseNewSmsMessages(s, i),
    Alt(ParseListCurrentCalls(s, i),
        ParseEmpty(s, i))))
  }

  /**
    `parser()`: the eighteen alternatives in their order. The first that
    does not mismatch decides: its success, its need for more input, or
    its violation.
  */
  function ResponseAt(s: string, i: nat): (r: Outcome<Response>)
    requires i <= |s|
    ensures Framed(r, s, i)
  {
    Alt(Alternatives1(s, i), Alt(Alternatives2(s, i), Alt(Alternatives3(s, i), Alternatives4(s, i))))
  }

  /**
    The result of `parse`. `ProtocolViolation` stands for the case where
    `parse` does not return because a code table reached `unreachable!()`.
  */
  datatype ParseResult = Success(response: Response, tail: string) | Incomplete | Malformed | ProtocolViolation

  /** The result of `parse` once the alternatives gave `r` at the start of `data`. */
  function Decide(data: string, r: Outcome<Response>): (p: ParseResult)
    requires Framed(r, data, 0)
    ensures p.Success? ==> |p.tail| < |data| && p.tail == data[|data| - |p.tail|..]
    ensures p.Success? ==> FrameEnd(data, 0, |data| - |p.tail|, p.response)
  {
    match r
    case Parsed(response, pos) => Success(response, data[pos..])
    case Short => Incomplete
    case Mismatch => Malformed
    case Violation => ProtocolViolation
  }

  /**
    `parse`: one leading response of `data`, and the rest of `data` after
    it; the frame takes at least one character and ends as its kind of
    response requires.
  */
  function Parse(data: string): (r: ParseResult)
    ensures r.Success? ==> |r.tail| < |data| && r.tail == data[|data| - |r.tail|..]
    ensures r.Success? ==> FrameEnd(data, 0, |data| - |r.tail|, r.response)
  {
    Decide(data, ResponseAt(data, 0))
  }
}
