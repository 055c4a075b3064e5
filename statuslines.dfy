/**
  What the status-line parsers of src/parser.rs decode from a well-formed
  line: for each kind, the response built from the fields written in the
  line, or the protocol violation an unknown code raises, stated for a
  line that starts at any position of the buffer.
*/
module StatusLines {

  import opened Base
  import opened Streaming
  import opened Codes
  import opened Responses
  import opened Parser
  import opened FieldFacts
  import opened Calendar
  import Ucs2

  /** The outcome of a coded field whose table lookup gave `v`: the entry, or a violation. */
  function Known<T>(v: Option<T>, q: nat): Outcome<T> {
    match v
    case None => Violation
    case Some(e) => Parsed(e, q)
  }

  // ---------------------------------------------------------------------
  // +CPAS, +CSQ, +CBC
  //
  // Each `...At` lemma below is proved in two steps: a `...Pieces` lemma
  // reads every field off the text, and a `...Of` lemma composes the
  // parser from what its fields read, with no text in sight.

  /** `+CPAS: <status>\r\r` from what its fields read. */
  lemma PhoneActivityOf(s: string, i: nat, code: nat, j: nat)
    requires i <= |s| && Tag("+CPAS: ", s, i) == Parsed((), i + 7)
    requires Unsigned(0xFF, s, i + 7) == Parsed(code, j) && CrCr(s, j) == Parsed((), j + 2)
    ensures ParsePhoneActivityStatus(s, i) ==
      match PhoneActivityStatusOf(code as uint8)
      case Some(status) => Parsed(PhoneActivity(status), j + 2)
      case None => Violation
  {
  }

  /** The fields of a `+CPAS` line, read off its layout. */
  lemma PhoneActivityPieces(s: string, i: nat, j: nat)
    ensures (i + 7 <= |s| && s[i..i + 7] == "+CPAS: " && NumberAt(s, i + 7, j, 0xFF) && CrCrAt(s, j)) ==>
      && Tag("+CPAS: ", s, i) == Parsed((), i + 7)
      && Unsigned(0xFF, s, i + 7) == Parsed(Decimal(s[i + 7..j]), j)
      && CrCr(s, j) == Parsed((), j + 2)
  {
    if i + 7 <= |s| && s[i..i + 7] == "+CPAS: " && NumberAt(s, i + 7, j, 0xFF) && CrCrAt(s, j) {
      TagMatches("+CPAS: ", s, i);
      UnsignedExact(0xFF, s, i + 7, j);
      CrCrExact(s, j);
    }
  }

  /** `+CPAS: <status>\r\r`: the activity status of the code, or a violation for an unknown code. */
  lemma PhoneActivityAt(s: string, i: nat, j: nat)
    requires i + 7 <= |s| && s[i..i + 7] == "+CPAS: "
    requires NumberAt(s, i + 7, j, 0xFF) && CrCrAt(s, j)
    ensures ParsePhoneActivityStatus(s, i) ==
      match PhoneActivityStatusOf(CodeAt(s, i + 7, j))
      case Some(status) => Parsed(PhoneActivity(status), j + 2)
      case None => Violation
  {
    PhoneActivityPieces(s, i, j);
    PhoneActivityOf(s, i, Decimal(s[i + 7..j]), j);
  }

  /** `+CSQ: <rssi>,<rate>\r\r` from what its fields read. */
  lemma SignalQualityOf(s: string, i: nat, rssi: nat, j: nat, rate: nat, k: nat)
    requires i <= |s| && Tag("+CSQ: ", s, i) == Parsed((), i + 6)
    requires Unsigned(0xFF, s, i + 6) == Parsed(rssi, j) && Char(',', s, j) == Parsed((), j + 1)
    requires Unsigned(0xFF, s, j + 1) == Parsed(rate, k) && CrCr(s, k) == Parsed((), k + 2)
    ensures ParseSignalQuality(s, i) ==
      match (SignalQualityRssiOf(rssi as uint8), SignalQualityErrorRateOf(rate as uint8))
      case (Some(r), Some(e)) => Parsed(SignalQuality(r, e), k + 2)
      case _ => Violation
  {
  }

  /** The fields of a `+CSQ` line, read off its layout. */
  lemma SignalQualityPieces(s: string, i: nat, j: nat, k: nat)
    ensures (&& i + 6 <= |s| && s[i..i + 6] == "+CSQ: "
             && NumberAt(s, i + 6, j, 0xFF) && s[j] == ','
             && NumberAt(s, j + 1, k, 0xFF) && CrCrAt(s, k)) ==>
      && Tag("+CSQ: ", s, i) == Parsed((), i + 6)
      && Unsigned(0xFF, s, i + 6) == Parsed(Decimal(s[i + 6..j]), j)
      && Char(',', s, j) == Parsed((), j + 1)
      && Unsigned(0xFF, s, j + 1) == Parsed(Decimal(s[j + 1..k]), k)
      && CrCr(s, k) == Parsed((), k + 2)
  {
    if && i + 6 <= |s| && s[i..i + 6] == "+CSQ: "
       && NumberAt(s, i + 6, j, 0xFF) && s[j] == ','
       && NumberAt(s, j + 1, k, 0xFF) && CrCrAt(s, k)
    {
      TagMatches("+CSQ: ", s, i);
      UnsignedExact(0xFF, s, i + 6, j);
      UnsignedExact(0xFF, s, j + 1, k);
      CrCrExact(s, k);
    }
  }

  /** `+CSQ: <rssi>,<rate>\r\r`: both codes decoded, or a violation when either table lacks its code. */
  lemma SignalQualityAt(s: string, i: nat, j: nat, k: nat)
    requires i + 6 <= |s| && s[i..i + 6] == "+CSQ: "
    requires NumberAt(s, i + 6, j, 0xFF) && s[j] == ','
    requires NumberAt(s, j + 1, k, 0xFF) && CrCrAt(s, k)
    ensures ParseSignalQuality(s, i) ==
      match (SignalQualityRssiOf(CodeAt(s, i + 6, j)), SignalQualityErrorRateOf(CodeAt(s, j + 1, k)))
      case (Some(rssi), Some(rate)) => Parsed(SignalQuality(rssi, rate), k + 2)
      case _ => Violation
  {
    SignalQualityPieces(s, i, j, k);
    SignalQualityOf(s, i, Decimal(s[i + 6..j]), j, Decimal(s[j + 1..k]), k);
  }

  /** `+CBC: <status>,<level>,<voltage>\r\r` from what its fields read. */
  lemma BatteryChargeOf(s: string, i: nat, code: nat, j: nat, level: nat, k: nat, voltage: nat, m: nat)
    requires i <= |s| && Tag("+CBC: ", s, i) == Parsed((), i + 6)
    requires Unsigned(0xFF, s, i + 6) == Parsed(code, j) && Char(',', s, j) == Parsed((), j + 1)
    requires Unsigned(0xFF, s, j + 1) == Parsed(level, k) && Char(',', s, k) == Parsed((), k + 1)
    requires Unsigned(0xFFFF, s, k + 1) == Parsed(voltage, m) && CrCr(s, m) == Parsed((), m + 2)
    ensures ParseBatteryCharge(s, i) ==
      match BatteryChargeStatusOf(code as uint8)
      case Some(status) => Parsed(BatteryCharge(status, level as uint8, voltage as uint16), m + 2)
      case None => Violation
  {
  }

  /** The fields of a `+CBC` line, read off its layout. */
  lemma BatteryChargePieces(s: string, i: nat, j: nat, k: nat, m: nat)
    ensures (&& i + 6 <= |s| && s[i..i + 6] == "+CBC: "
             && NumberAt(s, i + 6, j, 0xFF) && s[j] == ','
             && NumberAt(s, j + 1, k, 0xFF) && s[k] == ','
             && NumberAt(s, k + 1, m, 0xFFFF) && CrCrAt(s, m)) ==>
      && Tag("+CBC: ", s, i) == Parsed((), i + 6)
      && Unsigned(0xFF, s, i + 6) == Parsed(Decimal(s[i + 6..j]), j)
      && Char(',', s, j) == Parsed((), j + 1)
      && Unsigned(0xFF, s, j + 1) == Parsed(Decimal(s[j + 1..k]), k)
      && Char(',', s, k) == Parsed((), k + 1)
      && Unsigned(0xFFFF, s, k + 1) == Parsed(Decimal(s[k + 1..m]), m)
      && CrCr(s, m) == Parsed((), m + 2)
  {
    if && i + 6 <= |s| && s[i..i + 6] == "+CBC: "
       && NumberAt(s, i + 6, j, 0xFF) && s[j] == ','
       && NumberAt(s, j + 1, k, 0xFF) && s[k] == ','
       && NumberAt(s, k + 1, m, 0xFFFF) && CrCrAt(s, m)
    {
      TagMatches("+CBC: ", s, i);
      UnsignedExact(0xFF, s, i + 6, j);
      UnsignedExact(0xFF, s, j + 1, k);
      UnsignedExact(0xFFFF, s, k + 1, m);
      CrCrExact(s, m);
    }
  }

  /** `+CBC: <status>,<level>,<voltage>\r\r`: the coded status with the level and voltage as written. */
  lemma BatteryChargeAt(s: string, i: nat, j: nat, k: nat, m: nat)
    requires i + 6 <= |s| && s[i..i + 6] == "+CBC: "
    requires NumberAt(s, i + 6, j, 0xFF) && s[j] == ','
    requires NumberAt(s, j + 1, k, 0xFF) && s[k] == ','
    requires NumberAt(s, k + 1, m, 0xFFFF) && CrCrAt(s, m)
    ensures ParseBatteryCharge(s, i) ==
      match BatteryChargeStatusOf(CodeAt(s, i + 6, j))
      case Some(status) =>
        Parsed(BatteryCharge(status, Decimal(s[j + 1..k]) as uint8, Decimal(s[k + 1..m]) as uint16), m + 2)
      case None => Violation
  {
    BatteryChargePieces(s, i, j, k, m);
    BatteryChargeOf(s, i, Decimal(s[i + 6..j]), j, Decimal(s[j + 1..k]), k, Decimal(s[k + 1..m]), m);
  }

  // ---------------------------------------------------------------------
  // +COPS

  /** `+COPS: <mode>` followed by no format group, from what its fields read. */
  lemma OperatorModeOf(s: string, i: nat, mode: nat, j: nat)
    requires i <= |s| && Tag("+COPS: ", s, i) == Parsed((), i + 7)
    requires Unsigned(0xFF, s, i + 7) == Parsed(mode, j)
    requires OperatorArgs(s, j) == Mismatch && CrCr(s, j) == Parsed((), j + 2)
    ensures ParseOperatorSelection(s, i) ==
      match OperatorSelectionModeOf(mode as uint8)
      case Some(m) => Parsed(OperatorSelection(m, None, None), j + 2)
      case None => Violation
  {
  }

  /** The fields of a `+COPS` line with the mode alone, read off its layout. */
  lemma OperatorModePieces(s: string, i: nat, j: nat)
    ensures (i + 7 <= |s| && s[i..i + 7] == "+COPS: " && NumberAt(s, i + 7, j, 0xFF) && CrCrAt(s, j)) ==>
      && Tag("+COPS: ", s, i) == Parsed((), i + 7)
      && Unsigned(0xFF, s, i + 7) == Parsed(Decimal(s[i + 7..j]), j)
      && OperatorArgs(s, j) == Mismatch
      && CrCr(s, j) == Parsed((), j + 2)
  {
    if i + 7 <= |s| && s[i..i + 7] == "+COPS: " && NumberAt(s, i + 7, j, 0xFF) && CrCrAt(s, j) {
      TagMatches("+COPS: ", s, i);
      UnsignedExact(0xFF, s, i + 7, j);
      assert Char(',', s, j) == Mismatch;
      CrCrExact(s, j);
    }
  }

  /** `+COPS: <mode>\r\r`: the mode alone, with no format and no operator. */
  lemma OperatorModeAt(s: string, i: nat, j: nat)
    requires i + 7 <= |s| && s[i..i + 7] == "+COPS: "
    requires NumberAt(s, i + 7, j, 0xFF) && CrCrAt(s, j)
    ensures ParseOperatorSelection(s, i) ==
      match OperatorSelectionModeOf(CodeAt(s, i + 7, j))
      case Some(mode) => Parsed(OperatorSelection(mode, None, None), j + 2)
      case None => Violation
  {
    OperatorModePieces(s, i, j);
    OperatorModeOf(s, i, Decimal(s[i + 7..j]), j);
  }

  /** The format group of `+COPS` from what its fields read. */
  lemma OperatorArgsOf(s: string, j: nat, format: nat, f: nat, operator: string, q: nat)
    requires j <= |s| && Char(',', s, j) == Parsed((), j + 1)
    requires Unsigned(0xFF, s, j + 1) == Parsed(format, f) && Char(',', s, f) == Parsed((), f + 1)
    requires QuotedText(s, f + 1) == Parsed(operator, q)
    ensures format <= 0xFF
    ensures OperatorArgs(s, j) == Parsed(OperatorFields(format as uint8, operator), q)
  {
  }

  /** The format group of `+COPS` read exactly. */
  lemma OperatorArgsAt(s: string, j: nat, f: nat, q: nat)
    requires NumberAt(s, j + 1, f, 0xFF) && s[j] == ',' && s[f] == ','
    requires QuotedAt(s, f + 1, q)
    ensures OperatorArgs(s, j) == Parsed(OperatorFields(CodeAt(s, j + 1, f), s[f + 2..q - 1]), q)
  {
    OperatorArgsPieces(s, j, f, q);
    OperatorArgsOf(s, j, Decimal(s[j + 1..f]), f, s[f + 2..q - 1], q);
  }

  /** The fields of the format group, read off its layout. */
  lemma OperatorArgsPieces(s: string, j: nat, f: nat, q: nat)
    ensures (NumberAt(s, j + 1, f, 0xFF) && s[j] == ',' && s[f] == ',' && QuotedAt(s, f + 1, q)) ==>
      && Char(',', s, j) == Parsed((), j + 1)
      && Unsigned(0xFF, s, j + 1) == Parsed(Decimal(s[j + 1..f]), f)
      && Char(',', s, f) == Parsed((), f + 1)
      && QuotedText(s, f + 1) == Parsed(s[f + 2..q - 1], q)
  {
    if NumberAt(s, j + 1, f, 0xFF) && s[j] == ',' && s[f] == ',' && QuotedAt(s, f + 1, q) {
      UnsignedExact(0xFF, s, j + 1, f);
      QuotedTextExact(s, f + 1, q);
    }
  }

  /** `+COPS: <mode>` followed by a format group and then `end`, from what its fields read. */
  lemma OperatorSelectionOf(s: string, i: nat, mode: nat, j: nat, fields: OperatorFields, q: nat, end: Outcome<()>)
    requires i <= |s| && Tag("+COPS: ", s, i) == Parsed((), i + 7)
    requires Unsigned(0xFF, s, i + 7) == Parsed(mode, j)
    requires OperatorArgs(s, j) == Parsed(fields, q) && CrCr(s, q) == end
    requires end == Mismatch || end == Parsed((), q + 2)
    ensures ParseOperatorSelection(s, i) ==
      match OperatorSelectionModeOf(mode as uint8)
      case None => Violation
      case Some(m) =>
        if end.Mismatch? then Mismatch
        else
          match OperatorSelectionFormatOf(fields.format)
          case Some(format) => Parsed(OperatorSelection(m, Some(format), Some(fields.operator)), q + 2)
          case None => Violation
  {
  }

  /** The tag, the mode and the terminator of a `+COPS` line with a format group, read off its layout. */
  lemma OperatorSelectionPieces(s: string, i: nat, j: nat, f: nat, q: nat)
    ensures (&& i + 7 <= |s| && s[i..i + 7] == "+COPS: "
             && NumberAt(s, i + 7, j, 0xFF) && s[j] == ','
             && NumberAt(s, j + 1, f, 0xFF) && s[f] == ','
             && QuotedAt(s, f + 1, q)) ==>
      && Tag("+COPS: ", s, i) == Parsed((), i + 7)
      && Unsigned(0xFF, s, i + 7) == Parsed(Decimal(s[i + 7..j]), j)
      && (CrCrAt(s, q) ==> CrCr(s, q) == Parsed((), q + 2))
      && (q < |s| && s[q] != '\r' ==> CrCr(s, q) == Mismatch)
  {
    if && i + 7 <= |s| && s[i..i + 7] == "+COPS: "
       && NumberAt(s, i + 7, j, 0xFF) && s[j] == ','
       && NumberAt(s, j + 1, f, 0xFF) && s[f] == ','
       && QuotedAt(s, f + 1, q)
    {
      TagMatches("+COPS: ", s, i);
      UnsignedExact(0xFF, s, i + 7, j);
      if CrCrAt(s, q) {
        CrCrExact(s, q);
      }
      if q < |s| && s[q] != '\r' {
        TagMismatchAt("\r\r", s, q, 0);
      }
    }
  }

  /**
    `+COPS: <mode>,<format>,"<operator>"\r\r`: mode, format and operator
    decoded; an unknown mode is a violation at once, an unknown format only
    once the terminator has matched.
  */
  lemma OperatorSelectionAt(s: string, i: nat, j: nat, f: nat, q: nat)
    requires i + 7 <= |s| && s[i..i + 7] == "+COPS: "
    requires NumberAt(s, i + 7, j, 0xFF) && s[j] == ','
    requires NumberAt(s, j + 1, f, 0xFF) && s[f] == ','
    requires QuotedAt(s, f + 1, q) && CrCrAt(s, q)
    ensures ParseOperatorSelection(s, i) ==
      match (OperatorSelectionModeOf(CodeAt(s, i + 7, j)), OperatorSelectionFormatOf(CodeAt(s, j + 1, f)))
      case (Some(mode), Some(format)) => Parsed(OperatorSelection(mode, Some(format), Some(s[f + 2..q - 1])), q + 2)
      case _ => Violation
  {
    OperatorSelectionPieces(s, i, j, f, q);
    OperatorArgsPieces(s, j, f, q);
    OperatorArgsOf(s, j, Decimal(s[j + 1..f]), f, s[f + 2..q - 1], q);
    OperatorSelectionOf(s, i, Decimal(s[i + 7..j]), j, OperatorFields(Decimal(s[j + 1..f]) as uint8, s[f + 2..q - 1]), q, Parsed((), q + 2));
  }

  /**
    With a known mode, a `+COPS` line whose operator is not followed by the
    terminator mismatches whatever its format code: the format table is
    consulted only after the whole line has matched.
  */
  lemma OperatorUnterminated(s: string, i: nat, j: nat, f: nat, q: nat)
    requires i + 7 <= |s| && s[i..i + 7] == "+COPS: "
    requires NumberAt(s, i + 7, j, 0xFF) && s[j] == ','
    requires NumberAt(s, j + 1, f, 0xFF) && s[f] == ','
    requires QuotedAt(s, f + 1, q) && q < |s| && s[q] != '\r'
    requires OperatorSelectionModeOf(CodeAt(s, i + 7, j)).Some?
    ensures ParseOperatorSelection(s, i) == Mismatch
  {
    OperatorSelectionPieces(s, i, j, f, q);
    OperatorArgsPieces(s, j, f, q);
    OperatorArgsOf(s, j, Decimal(s[j + 1..f]), f, s[f + 2..q - 1], q);
    OperatorSelectionOf(s, i, Decimal(s[i + 7..j]), j, OperatorFields(Decimal(s[j + 1..f]) as uint8, s[f + 2..q - 1]), q, Mismatch);
  }

  // ---------------------------------------------------------------------
  // +CLCC

  /** `,<direction>,<state>,<mode>,<multiparty>` written as four numbers ending at `a`, `b`, `c` and `d`. */
  predicate CallCodesText(s: string, i: nat, a: nat, b: nat, c: nat, d: nat) {
    && i < |s| && s[i] == ','
    && NumberAt(s, i + 1, a, 0xFF) && s[a] == ','
    && NumberAt(s, a + 1, b, 0xFF) && s[b] == ','
    && NumberAt(s, b + 1, c, 0xFF) && s[c] == ','
    && NumberAt(s, c + 1, d, 0xFF)
  }

  /** The four call fields those codes stand for, when every table has an entry. */
  function CallCodesValue(s: string, i: nat, a: nat, b: nat, c: nat, d: nat): Option<CallFields>
    requires CallCodesText(s, i, a, b, c, d)
  {
    match (CallDirectionOf(CodeAt(s, i + 1, a)), CallStateOf(CodeAt(s, a + 1, b)), CallModeOf(CodeAt(s, b + 1, c)), CallMultipartyOf(CodeAt(s, c + 1, d)))
    case (Some(direction), Some(state), Some(mode), Some(multiparty)) => Some(CallFields(direction, state, mode, multiparty))
    case _ => None
  }

  /** The coded fields from what their commas and numbers read. */
  lemma CallCodesOf(s: string, i: nat, direction: nat, a: nat, state: nat, b: nat, mode: nat, c: nat, multiparty: nat, d: nat)
    requires i <= |s| && Char(',', s, i) == Parsed((), i + 1)
    requires Unsigned(0xFF, s, i + 1) == Parsed(direction, a) && Char(',', s, a) == Parsed((), a + 1)
    requires Unsigned(0xFF, s, a + 1) == Parsed(state, b) && Char(',', s, b) == Parsed((), b + 1)
    requires Unsigned(0xFF, s, b + 1) == Parsed(mode, c) && Char(',', s, c) == Parsed((), c + 1)
    requires Unsigned(0xFF, s, c + 1) == Parsed(multiparty, d)
    ensures CallCodes(s, i) ==
      match (CallDirectionOf(direction as uint8), CallStateOf(state as uint8), CallModeOf(mode as uint8), CallMultipartyOf(multiparty as uint8))
      case (Some(dir), Some(st), Some(m), Some(mp)) => Parsed(CallFields(dir, st, m, mp), d)
      case _ => Violation
  {
  }

  /** The commas and numbers of the coded fields, read off their layout. */
  lemma CallCodesPieces(s: string, i: nat, a: nat, b: nat, c: nat, d: nat)
    ensures CallCodesText(s, i, a, b, c, d) ==>
      && Char(',', s, i) == Parsed((), i + 1)
      && Unsigned(0xFF, s, i + 1) == Parsed(Decimal(s[i + 1..a]), a) && Char(',', s, a) == Parsed((), a + 1)
      && Unsigned(0xFF, s, a + 1) == Parsed(Decimal(s[a + 1..b]), b) && Char(',', s, b) == Parsed((), b + 1)
      && Unsigned(0xFF, s, b + 1) == Parsed(Decimal(s[b + 1..c]), c) && Char(',', s, c) == Parsed((), c + 1)
      && Unsigned(0xFF, s, c + 1) == Parsed(Decimal(s[c + 1..d]), d)
  {
    if CallCodesText(s, i, a, b, c, d) {
      UnsignedExact(0xFF, s, i + 1, a);
      UnsignedExact(0xFF, s, a + 1, b);
      UnsignedExact(0xFF, s, b + 1, c);
      UnsignedExact(0xFF, s, c + 1, d);
    }
  }

  /** The coded fields read exactly, or a violation for a code without an entry. */
  lemma CallCodesAt(s: string, i: nat, a: nat, b: nat, c: nat, d: nat)
    requires CallCodesText(s, i, a, b, c, d)
    ensures CallCodes(s, i) == Known(CallCodesValue(s, i, a, b, c, d), d)
  {
    CallCodesPieces(s, i, a, b, c, d);
    CallCodesOf(s, i, Decimal(s[i + 1..a]), a, Decimal(s[a + 1..b]), b, Decimal(s[b + 1..c]), c, Decimal(s[c + 1..d]), d);
  }

  /** `,"<number>",<type>,"<name>"` with the quotes ending at `n` and `e`. */
  predicate CallNumberText(s: string, i: nat, n: nat, t: nat, e: nat) {
    && i < |s| && s[i] == ','
    && QuotedAt(s, i + 1, n) && n < |s| && s[n] == ','
    && NumberAt(s, n + 1, t, 0xFFFF) && s[t] == ','
    && QuotedAt(s, t + 1, e)
  }

  /** The number group from what its fields read. */
  lemma CallArgsOf(s: string, i: nat, number: string, n: nat, numberType: nat, t: nat, name: string, e: nat)
    requires i <= |s| && Char(',', s, i) == Parsed((), i + 1)
    requires QuotedText(s, i + 1) == Parsed(number, n) && Char(',', s, n) == Parsed((), n + 1)
    requires Unsigned(0xFFFF, s, n + 1) == Parsed(numberType, t) && Char(',', s, t) == Parsed((), t + 1)
    requires QuotedText(s, t + 1) == Parsed(name, e)
    ensures numberType <= 0xFFFF
    ensures CallArgs(s, i) == Parsed(CallNumber(number, numberType as uint16, name), e)
  {
  }

  /** What each field of the number group reads, off its layout. */
  lemma CallNumberPieces(s: string, i: nat, n: nat, t: nat, e: nat)
    ensures CallNumberText(s, i, n, t, e) ==>
      && Char(',', s, i) == Parsed((), i + 1)
      && QuotedText(s, i + 1) == Parsed(s[i + 2..n - 1], n)
      && Char(',', s, n) == Parsed((), n + 1)
      && Unsigned(0xFFFF, s, n + 1) == Parsed(Decimal(s[n + 1..t]), t)
      && Char(',', s, t) == Parsed((), t + 1)
      && QuotedText(s, t + 1) == Parsed(s[t + 2..e - 1], e)
  {
    if CallNumberText(s, i, n, t, e) {
      QuotedTextExact(s, i + 1, n);
      UnsignedExact(0xFFFF, s, n + 1, t);
      QuotedTextExact(s, t + 1, e);
    }
  }

  /** The number group read exactly: the number, its type and the name between their quotes. */
  lemma CallArgsAt(s: string, i: nat, n: nat, t: nat, e: nat)
    requires CallNumberText(s, i, n, t, e)
    ensures CallArgs(s, i) == Parsed(CallNumber(s[i + 2..n - 1], Decimal(s[n + 1..t]) as uint16, s[t + 2..e - 1]), e)
  {
    CallNumberPieces(s, i, n, t, e);
    CallArgsOf(s, i, s[i + 2..n - 1], n, Decimal(s[n + 1..t]), t, s[t + 2..e - 1], e);
  }

  /** `+CLCC: <index>,<codes>` followed by `args` and the terminator, from what its fields read. */
  lemma ListCallsOf(s: string, i: nat, index: nat, x: nat, codes: Option<CallFields>, d: nat, number: Option<CallNumber>, e: nat)
    requires i <= |s| && Tag("+CLCC: ", s, i) == Parsed((), i + 7)
    requires Unsigned(0xFFFF, s, i + 7) == Parsed(index, x)
    requires x <= |s| && CallCodes(s, x) == Known(codes, d)
    requires d <= |s| && CallArgs(s, d) == (match number case None => Mismatch case Some(v) => Parsed(v, e))
    requires (number.None? ==> e == d) && CrCr(s, e) == Parsed((), e + 2)
    ensures ParseListCurrentCalls(s, i) ==
      match codes
      case Some(f) =>
        Parsed(ListCurrentCalls(index as uint16, f.direction, f.state, f.mode, f.multiparty,
                                (match number case None => None case Some(v) => Some(v.number)),
                                (match number case None => None case Some(v) => Some(v.numberType)),
                                (match number case None => None case Some(v) => Some(v.name))), e + 2)
      case None => Violation
  {
  }

  /** The fields of a `+CLCC` line before the number group, read off its layout. */
  lemma ListCallsPieces(s: string, i: nat, x: nat, a: nat, b: nat, c: nat, d: nat)
    ensures (i + 7 <= |s| && s[i..i + 7] == "+CLCC: " && NumberAt(s, i + 7, x, 0xFFFF) && CallCodesText(s, x, a, b, c, d)) ==>
      && Tag("+CLCC: ", s, i) == Parsed((), i + 7)
      && Unsigned(0xFFFF, s, i + 7) == Parsed(Decimal(s[i + 7..x]), x)
      && CallCodes(s, x) == Known(CallCodesValue(s, x, a, b, c, d), d)
  {
    if i + 7 <= |s| && s[i..i + 7] == "+CLCC: " && NumberAt(s, i + 7, x, 0xFFFF) && CallCodesText(s, x, a, b, c, d) {
      TagMatches("+CLCC: ", s, i);
      UnsignedExact(0xFFFF, s, i + 7, x);
      CallCodesAt(s, x, a, b, c, d);
    }
  }

  /** What follows the coded fields when no number group is written, off its layout. */
  lemma NoNumberPieces(s: string, d: nat)
    ensures CrCrAt(s, d) ==> CallArgs(s, d) == Mismatch && CrCr(s, d) == Parsed((), d + 2)
  {
    if CrCrAt(s, d) {
      assert Char(',', s, d) == Mismatch;
      CrCrExact(s, d);
    }
  }

  /** The number group and the terminator after it, off their layout. */
  lemma NumberPieces(s: string, d: nat, n: nat, t: nat, e: nat)
    ensures CallNumberText(s, d, n, t, e) && CrCrAt(s, e) ==>
      && CallArgs(s, d) == Parsed(CallNumber(s[d + 2..n - 1], Decimal(s[n + 1..t]) as uint16, s[t + 2..e - 1]), e)
      && CrCr(s, e) == Parsed((), e + 2)
  {
    if CallNumberText(s, d, n, t, e) && CrCrAt(s, e) {
      CallArgsAt(s, d, n, t, e);
      CrCrExact(s, e);
    }
  }

  /** `+CLCC: <index>,<codes>\r\r`: a call with no number group leaves number, type and name absent. */
  lemma CallWithoutNumberAt(s: string, i: nat, x: nat, a: nat, b: nat, c: nat, d: nat)
    requires i + 7 <= |s| && s[i..i + 7] == "+CLCC: "
    requires NumberAt(s, i + 7, x, 0xFFFF) && CallCodesText(s, x, a, b, c, d) && CrCrAt(s, d)
    ensures ParseListCurrentCalls(s, i) ==
      match CallCodesValue(s, x, a, b, c, d)
      case Some(f) =>
        Parsed(ListCurrentCalls(Decimal(s[i + 7..x]) as uint16, f.direction, f.state, f.mode, f.multiparty, None, None, None), d + 2)
      case None => Violation
  {
    ListCallsPieces(s, i, x, a, b, c, d);
    NoNumberPieces(s, d);
    ListCallsOf(s, i, Decimal(s[i + 7..x]), x, CallCodesValue(s, x, a, b, c, d), d, None, d);
  }

  /** `+CLCC: <index>,<codes>,"<number>",<type>,"<name>"\r\r`: the number group fills the last three fields. */
  lemma CallWithNumberAt(s: string, i: nat, x: nat, a: nat, b: nat, c: nat, d: nat, n: nat, t: nat, e: nat)
    requires i + 7 <= |s| && s[i..i + 7] == "+CLCC: "
    requires NumberAt(s, i + 7, x, 0xFFFF) && CallCodesText(s, x, a, b, c, d)
    requires CallNumberText(s, d, n, t, e) && CrCrAt(s, e)
    ensures ParseListCurrentCalls(s, i) ==
      match CallCodesValue(s, x, a, b, c, d)
      case Some(f) =>
        Parsed(ListCurrentCalls(Decimal(s[i + 7..x]) as uint16, f.direction, f.state, f.mode, f.multiparty,
                                Some(s[d + 2..n - 1]), Some(Decimal(s[n + 1..t]) as uint16), Some(s[t + 2..e - 1])), e + 2)
      case None => Violation
  {
    ListCallsPieces(s, i, x, a, b, c, d);
    NumberPieces(s, d, n, t, e);
    ListCallsOf(s, i, Decimal(s[i + 7..x]), x, CallCodesValue(s, x, a, b, c, d), d,
                Some(CallNumber(s[d + 2..n - 1], Decimal(s[n + 1..t]) as uint16, s[t + 2..e - 1])), e);
  }

  // ---------------------------------------------------------------------
  // +CMGL, +CMGR

  /**
    `,"<address>",[<name>],` laid out with the address quotes ending at `a`
    and the name quotes ending at `c`; no name is written when `c == a + 1`.
  */
  predicate SenderText(s: string, i: nat, a: nat, c: nat) {
    && i < |s| && s[i] == ','
    && QuotedHexAt(s, i + 1, a) && a < |s| && s[a] == ','
    && (c == a + 1 || QuotedHexAt(s, a + 1, c)) && c < |s| && s[c] == ','
  }

  /** The decoded address and, when written, the decoded name. */
  function SenderValue(s: string, i: nat, a: nat, c: nat): SmsSender
    requires i + 3 <= a <= |s| && (c == a + 1 || a + 3 <= c <= |s|)
  {
    SmsSender(Ucs2.Decode(s[i + 2..a - 1]), if c == a + 1 then None else Some(Ucs2.Decode(s[a + 2..c - 1])))
  }

  /** `<stamp>\r<text>\r\r` laid out with the stamp `st` at `p` and the hex text ending at `x`. */
  predicate ContentText(s: string, p: nat, st: Stamp, x: nat) {
    && Fits(st) && p + 22 < |s| && s[p..p + 22] == StampText(st) && s[p + 22] == '\r'
    && p + 23 <= x && CrCrAt(s, x) && AllHex(s[p + 23..x])
  }

  /** The stamp's date and time and the decoded text. */
  function ContentValue(s: string, p: nat, st: Stamp, x: nat): SmsContent
    requires p + 23 <= x <= |s|
  {
    SmsContent(StampTime(st), Ucs2.Decode(s[p + 23..x]))
  }

  /** The whole body of a listing: the sender part, then the content part after the comma at `c`. */
  predicate SmsBodyText(s: string, i: nat, a: nat, c: nat, st: Stamp, x: nat) {
    SenderText(s, i, a, c) && ContentText(s, c + 1, st, x)
  }

  /** The fields such a body carries. */
  function SmsBodyValue(s: string, i: nat, a: nat, c: nat, st: Stamp, x: nat): SmsBody
    requires i + 3 <= a <= |s| && (c == a + 1 || a + 3 <= c <= |s|) && c + 24 <= x <= |s|
  {
    var sender := SenderValue(s, i, a, c);
    var content := ContentValue(s, c + 1, st, x);
    SmsBody(sender.address, sender.addressText, content.timestamp, content.text)
  }

  /** The address, read up to the comma after it. */
  lemma SmsAddressAt(s: string, i: nat, a: nat)
    requires i < |s| && s[i] == ','
    requires QuotedHexAt(s, i + 1, a) && a < |s| && s[a] == ','
    ensures Char(',', s, i) == Parsed((), i + 1)
    ensures QuotedHex(s, i + 1) == Parsed(Ucs2.Decode(s[i + 2..a - 1]), a)
    ensures Char(',', s, a) == Parsed((), a + 1)
  {
    QuotedHexExact(s, i + 1, a);
  }

  /** The optional name, read up to the comma before the stamp. */
  lemma SmsNameAt(s: string, a: nat, c: nat)
    requires (c == a + 1 || QuotedHexAt(s, a + 1, c)) && c < |s| && s[c] == ','
    ensures Optional(QuotedHex(s, a + 1), a + 1) ==
      Parsed(if c == a + 1 then None else Some(Ucs2.Decode(s[a + 2..c - 1])), c)
    ensures Char(',', s, c) == Parsed((), c + 1)
  {
    if c == a + 1 {
      assert Char('"', s, a + 1) == Mismatch;
    } else {
      QuotedHexExact(s, a + 1, c);
    }
  }

  /** The sender part, from what its commas, its address and its optional name read. */
  lemma SmsSenderOf(s: string, i: nat, sender: SmsSender, a: nat, c: nat)
    requires i <= |s| && Char(',', s, i) == Parsed((), i + 1)
    requires QuotedHex(s, i + 1) == Parsed(sender.address, a) && Char(',', s, a) == Parsed((), a + 1)
    requires Optional(QuotedHex(s, a + 1), a + 1) == Parsed(sender.addressText, c) && Char(',', s, c) == Parsed((), c + 1)
    ensures SmsMessageSender(s, i) == Parsed(sender, c + 1)
  {
  }

  /** The sender part read exactly. */
  lemma SmsSenderAt(s: string, i: nat, a: nat, c: nat)
    requires SenderText(s, i, a, c)
    ensures SmsMessageSender(s, i) == Parsed(SenderValue(s, i, a, c), c + 1)
  {
    SmsAddressAt(s, i, a);
    SmsNameAt(s, a, c);
    SmsSenderOf(s, i, SenderValue(s, i, a, c), a, c);
  }

  /** The text part, from what its carriage return, its hex digits and the terminator read. */
  lemma SmsTextOf(s: string, j: nat, text: string, x: nat)
    requires j <= |s| && Char('\r', s, j) == Parsed((), j + 1)
    requires StringHex(s, j + 1) == Parsed(text, x) && CrCr(s, x) == Parsed((), x + 2)
    ensures SmsMessageText(s, j) == Parsed(text, x + 2)
  {
  }

  /** The fields of the text part, read off its layout. */
  lemma SmsTextPieces(s: string, j: nat, x: nat)
    ensures (CrCrAt(s, x) && j < x && s[j] == '\r' && AllHex(s[j + 1..x])) ==>
      && Char('\r', s, j) == Parsed((), j + 1)
      && StringHex(s, j + 1) == Parsed(Ucs2.Decode(s[j + 1..x]), x)
      && CrCr(s, x) == Parsed((), x + 2)
  {
    if CrCrAt(s, x) && j < x && s[j] == '\r' && AllHex(s[j + 1..x]) {
      StringHexExact(s, j + 1, x);
      CrCrExact(s, x);
    }
  }

  /** The text part read exactly: the decoded hex between the carriage return and the terminator. */
  lemma SmsTextAt(s: string, j: nat, x: nat)
    requires CrCrAt(s, x) && j < x && s[j] == '\r' && AllHex(s[j + 1..x])
    ensures SmsMessageText(s, j) == Parsed(Ucs2.Decode(s[j + 1..x]), x + 2)
  {
    SmsTextPieces(s, j, x);
    SmsTextOf(s, j, Ucs2.Decode(s[j + 1..x]), x);
  }

  /** The content part, from the stamp's outcome and the text read after a valid stamp. */
  lemma SmsContentOf(s: string, p: nat, valid: bool, time: UtcDateTime, j: nat, text: string, e: nat)
    requires p <= |s| && j <= |s|
    requires Timestamp(s, p) == (if valid then Parsed(time, j) else Mismatch)
    requires SmsMessageText(s, j) == Parsed(text, e)
    ensures SmsMessageContent(s, p) == if valid then Parsed(SmsContent(time, text), e) else Mismatch
  {
  }

  /** The stamp and the text part of a content part, read off its layout. */
  lemma SmsContentPieces(s: string, p: nat, st: Stamp, x: nat)
    ensures ContentText(s, p, st, x) ==>
      && Timestamp(s, p) == (if StampValid(st) then Parsed(StampTime(st), p + 22) else Mismatch)
      && SmsMessageText(s, p + 22) == Parsed(Ucs2.Decode(s[p + 23..x]), x + 2)
  {
    if ContentText(s, p, st, x) {
      TimestampDecodes(s, p, st);
      SmsTextAt(s, p + 22, x);
    }
  }

  /** The content part read exactly, or a mismatch for an impossible date or time. */
  lemma SmsContentAt(s: string, p: nat, st: Stamp, x: nat)
    requires ContentText(s, p, st, x)
    ensures SmsMessageContent(s, p) == if StampValid(st) then Parsed(ContentValue(s, p, st, x), x + 2) else Mismatch
  {
    SmsContentPieces(s, p, st, x);
    SmsContentOf(s, p, StampValid(st), StampTime(st), p + 22, Ucs2.Decode(s[p + 23..x]), x + 2);
  }

  /**
    The body of a sender that parses, followed by a content part that parses
    when `valid` holds and mismatches otherwise.
  */
  lemma SmsBodyOf(s: string, i: nat, sender: SmsSender, p: nat, valid: bool, content: SmsContent, e: nat)
    requires i <= |s| && SmsMessageSender(s, i) == Parsed(sender, p)
    requires SmsMessageContent(s, p) == if valid then Parsed(content, e) else Mismatch
    ensures SmsMessageBody(s, i) ==
      if valid then Parsed(SmsBody(sender.address, sender.addressText, content.timestamp, content.text), e) else Mismatch
  {
  }

  /** SmsSenderAt, stated as an implication so that callers take on no proof obligation for it. */
  lemma SmsSenderIf(s: string, i: nat, a: nat, c: nat)
    ensures SenderText(s, i, a, c) ==> SmsMessageSender(s, i) == Parsed(SenderValue(s, i, a, c), c + 1)
  {
    if SenderText(s, i, a, c) {
      SmsSenderAt(s, i, a, c);
    }
  }

  /** SmsContentAt, stated as an implication. */
  lemma SmsContentIf(s: string, p: nat, st: Stamp, x: nat)
    ensures ContentText(s, p, st, x) ==> SmsMessageContent(s, p) == if StampValid(st) then Parsed(ContentValue(s, p, st, x), x + 2) else Mismatch
  {
    if ContentText(s, p, st, x) {
      SmsContentAt(s, p, st, x);
    }
  }

  /** The body shared by `+CMGL` and `+CMGR` read exactly; an impossible date or time mismatches. */
  lemma SmsBodyAt(s: string, i: nat, a: nat, c: nat, st: Stamp, x: nat)
    requires SmsBodyText(s, i, a, c, st, x)
    ensures SmsMessageBody(s, i) == if StampValid(st) then Parsed(SmsBodyValue(s, i, a, c, st, x), x + 2) else Mismatch
  {
    SmsSenderIf(s, i, a, c);
    SmsContentIf(s, c + 1, st, x);
    SmsBodyOf(s, i, SenderValue(s, i, a, c), c + 1, StampValid(st), ContentValue(s, c + 1, st, x), x + 2);
  }

  /** SmsBodyAt, stated as an implication. */
  lemma SmsBodyIf(s: string, i: nat, a: nat, c: nat, st: Stamp, x: nat)
    ensures SmsBodyText(s, i, a, c, st, x) ==>
      SmsMessageBody(s, i) == if StampValid(st) then Parsed(SmsBodyValue(s, i, a, c, st, x), x + 2) else Mismatch
  {
    if SmsBodyText(s, i, a, c, st, x) {
      SmsBodyAt(s, i, a, c, st, x);
    }
  }

  /** A quoted status read exactly: the status its text names, or a violation for an unknown name. */
  lemma SmsStatusAt(s: string, p: nat, q: nat)
    requires QuotedAt(s, p, q)
    ensures SmsStatus(s, p) == Known(SmsMessageStatusOf(s[p + 1..q - 1]), q)
  {
    QuotedTextExact(s, p, q);
  }

  /**
    `+CMGL: <index>,<status>,<body>` from what its pieces read: the status
    outcome decides first, then the body.
  */
  lemma ListSmsOf(s: string, i: nat, index: nat, j: nat, status: Option<SmsMessageStatus>, q: nat, valid: bool, b: SmsBody, e: nat)
    requires i <= |s| && Tag("+CMGL: ", s, i) == Parsed((), i + 7)
    requires Unsigned(0xFFFF, s, i + 7) == Parsed(index, j) && Char(',', s, j) == Parsed((), j + 1)
    requires q <= |s| && SmsStatus(s, j + 1) == Known(status, q)
    requires SmsMessageBody(s, q) == if valid then Parsed(b, e) else Mismatch
    ensures ParseListSmsMessages(s, i) ==
      match status
      case None => Violation
      case Some(v) =>
        if valid then Parsed(ListSmsMessage(index as uint16, v, b.address, b.addressText, b.timestamp, b.text), e) else Mismatch
  {
  }

  /** The tag, the index and the status of a `+CMGL` line, read off their layout. */
  lemma ListSmsPieces(s: string, i: nat, j: nat, q: nat)
    ensures (i + 7 <= |s| && s[i..i + 7] == "+CMGL: " && NumberAt(s, i + 7, j, 0xFFFF) && s[j] == ',' && QuotedAt(s, j + 1, q)) ==>
      && Tag("+CMGL: ", s, i) == Parsed((), i + 7)
      && Unsigned(0xFFFF, s, i + 7) == Parsed(Decimal(s[i + 7..j]), j)
      && Char(',', s, j) == Parsed((), j + 1)
      && SmsStatus(s, j + 1) == Known(SmsMessageStatusOf(s[j + 2..q - 1]), q)
  {
    if i + 7 <= |s| && s[i..i + 7] == "+CMGL: " && NumberAt(s, i + 7, j, 0xFFFF) && s[j] == ',' && QuotedAt(s, j + 1, q) {
      TagMatches("+CMGL: ", s, i);
      UnsignedExact(0xFFFF, s, i + 7, j);
      assert Char(',', s, j) == Parsed((), j + 1);
      SmsStatusAt(s, j + 1, q);
    }
  }

  /**
    `+CMGL: <index>,"<status>",<body>`: the index, the status named by its
    text and the body's fields; an unknown status is a violation, raised
    before the body is read, and an impossible date or time mismatches.
  */
  lemma ListSmsAt(s: string, i: nat, j: nat, q: nat, a: nat, c: nat, st: Stamp, x: nat)
    requires i + 7 <= |s| && s[i..i + 7] == "+CMGL: "
    requires NumberAt(s, i + 7, j, 0xFFFF) && s[j] == ','
    requires QuotedAt(s, j + 1, q) && SmsBodyText(s, q, a, c, st, x)
    ensures ParseListSmsMessages(s, i) ==
      match SmsMessageStatusOf(s[j + 2..q - 1])
      case None => Violation
      case Some(status) =>
        if !StampValid(st) then Mismatch
        else
          var b := SmsBodyValue(s, q, a, c, st, x);
          Parsed(ListSmsMessage(Decimal(s[i + 7..j]) as uint16, status, b.address, b.addressText, b.timestamp, b.text), x + 2)
  {
    ListSmsPieces(s, i, j, q);
    SmsBodyIf(s, q, a, c, st, x);
    ListSmsOf(s, i, Decimal(s[i + 7..j]), j, SmsMessageStatusOf(s[j + 2..q - 1]), q, StampValid(st), SmsBodyValue(s, q, a, c, st, x), x + 2);
  }

  /** `+CMGR: <status>,<body>` from what its pieces read: the status outcome decides first, then the body. */
  lemma ReadSmsOf(s: string, i: nat, status: Option<SmsMessageStatus>, q: nat, valid: bool, b: SmsBody, e: nat)
    requires i <= |s| && Tag("+CMGR: ", s, i) == Parsed((), i + 7)
    requires q <= |s| && SmsStatus(s, i + 7) == Known(status, q)
    requires SmsMessageBody(s, q) == if valid then Parsed(b, e) else Mismatch
    ensures ParseReadSmsMessages(s, i) ==
      match status
      case None => Violation
      case Some(v) => if valid then Parsed(ReadSmsMessage(v, b.address, b.addressText, b.timestamp, b.text), e) else Mismatch
  {
  }

  /** The tag and the status of a `+CMGR` line, read off their layout. */
  lemma ReadSmsPieces(s: string, i: nat, q: nat)
    ensures (i + 7 <= |s| && s[i..i + 7] == "+CMGR: " && QuotedAt(s, i + 7, q)) ==>
      && Tag("+CMGR: ", s, i) == Parsed((), i + 7)
      && SmsStatus(s, i + 7) == Known(SmsMessageStatusOf(s[i + 8..q - 1]), q)
  {
    if i + 7 <= |s| && s[i..i + 7] == "+CMGR: " && QuotedAt(s, i + 7, q) {
      TagMatches("+CMGR: ", s, i);
      SmsStatusAt(s, i + 7, q);
    }
  }

  /** `+CMGR: "<status>",<body>`: the status named by its text and the body's fields. */
  lemma ReadSmsAt(s: string, i: nat, q: nat, a: nat, c: nat, st: Stamp, x: nat)
    requires i + 7 <= |s| && s[i..i + 7] == "+CMGR: "
    requires QuotedAt(s, i + 7, q) && SmsBodyText(s, q, a, c, st, x)
    ensures ParseReadSmsMessages(s, i) ==
      match SmsMessageStatusOf(s[i + 8..q - 1])
      case None => Violation
      case Some(status) =>
        if !StampValid(st) then Mismatch
        else
          var b := SmsBodyValue(s, q, a, c, st, x);
          Parsed(ReadSmsMessage(status, b.address, b.addressText, b.timestamp, b.text), x + 2)
  {
    ReadSmsPieces(s, i, q);
    SmsBodyIf(s, q, a, c, st, x);
    ReadSmsOf(s, i, SmsMessageStatusOf(s[i + 8..q - 1]), q, StampValid(st), SmsBodyValue(s, q, a, c, st, x), x + 2);
  }

  // ---------------------------------------------------------------------
  // +CREG, +CMTI

  /** `,"<location>","<cell>"` with the quotes ending at `n` and `e`. */
  predicate LocationText(s: string, k: nat, n: nat, e: nat) {
    && k < |s| && s[k] == ','
    && QuotedAt(s, k + 1, n) && n < |s| && s[n] == ','
    && QuotedAt(s, n + 1, e)
  }

  /** The location group from what its fields read. */
  lemma LocationArgsOf(s: string, k: nat, location: string, n: nat, cell: string, e: nat)
    requires k <= |s| && Char(',', s, k) == Parsed((), k + 1)
    requires QuotedText(s, k + 1) == Parsed(location, n) && Char(',', s, n) == Parsed((), n + 1)
    requires QuotedText(s, n + 1) == Parsed(cell, e)
    ensures LocationArgs(s, k) == Parsed(LocationFields(location, cell), e)
  {
  }

  /** The location group and the terminator after it, off their layout: both quoted texts as written. */
  lemma LocationPieces(s: string, k: nat, n: nat, e: nat)
    ensures LocationText(s, k, n, e) && CrCrAt(s, e) ==>
      && LocationArgs(s, k) == Parsed(LocationFields(s[k + 2..n - 1], s[n + 2..e - 1]), e)
      && CrCr(s, e) == Parsed((), e + 2)
  {
    if LocationText(s, k, n, e) && CrCrAt(s, e) {
      QuotedTextExact(s, k + 1, n);
      QuotedTextExact(s, n + 1, e);
      LocationArgsOf(s, k, s[k + 2..n - 1], n, s[n + 2..e - 1], e);
      CrCrExact(s, e);
    }
  }

  /** What follows the status when no location group is written, off its layout. */
  lemma NoLocationPieces(s: string, k: nat)
    ensures CrCrAt(s, k) ==> LocationArgs(s, k) == Mismatch && CrCr(s, k) == Parsed((), k + 2)
  {
    if CrCrAt(s, k) {
      assert Char(',', s, k) == Mismatch;
      CrCrExact(s, k);
    }
  }

  /**
    `+CREG: <mode>,<status>` followed by `location` and the terminator,
    from what its fields read: both codes decoded, or a violation when
    either table lacks its code.
  */
  lemma NetworkRegistrationOf(s: string, i: nat, mode: nat, j: nat, status: nat, k: nat, location: Option<LocationFields>, e: nat)
    requires i <= |s| && Tag("+CREG: ", s, i) == Parsed((), i + 7)
    requires Unsigned(0xFF, s, i + 7) == Parsed(mode, j) && Char(',', s, j) == Parsed((), j + 1)
    requires Unsigned(0xFF, s, j + 1) == Parsed(status, k)
    requires k <= |s| && LocationArgs(s, k) == (match location case None => Mismatch case Some(v) => Parsed(v, e))
    requires (location.None? ==> e == k) && e <= |s| && CrCr(s, e) == Parsed((), e + 2)
    ensures ParseNetworkRegistration(s, i) ==
      match (NetworkRegistrationModeOf(mode as uint8), NetworkRegistrationStatusOf(status as uint8))
      case (Some(m), Some(v)) =>
        Parsed(NetworkRegistration(m, v, (match location case None => None case Some(l) => Some(l.location)),
                                   (match location case None => None case Some(l) => Some(l.cellId))), e + 2)
      case _ => Violation
  {
  }

  /** The tag and the two codes of a `+CREG` line, read off their layout. */
  lemma NetworkRegistrationPieces(s: string, i: nat, j: nat, k: nat)
    ensures (&& i + 7 <= |s| && s[i..i + 7] == "+CREG: "
             && NumberAt(s, i + 7, j, 0xFF) && s[j] == ',' && NumberAt(s, j + 1, k, 0xFF)) ==>
      && Tag("+CREG: ", s, i) == Parsed((), i + 7)
      && Unsigned(0xFF, s, i + 7) == Parsed(Decimal(s[i + 7..j]), j)
      && Char(',', s, j) == Parsed((), j + 1)
      && Unsigned(0xFF, s, j + 1) == Parsed(Decimal(s[j + 1..k]), k)
  {
    if && i + 7 <= |s| && s[i..i + 7] == "+CREG: "
       && NumberAt(s, i + 7, j, 0xFF) && s[j] == ',' && NumberAt(s, j + 1, k, 0xFF)
    {
      TagMatches("+CREG: ", s, i);
      UnsignedExact(0xFF, s, i + 7, j);
      UnsignedExact(0xFF, s, j + 1, k);
    }
  }

  /**
    `+CREG: <mode>,<status>\r\r`: mode and status decoded with no location
    and no cell; an unknown mode or status (status 0 included) is a
    violation.
  */
  lemma NetworkRegistrationAt(s: string, i: nat, j: nat, k: nat)
    requires i + 7 <= |s| && s[i..i + 7] == "+CREG: "
    requires NumberAt(s, i + 7, j, 0xFF) && s[j] == ','
    requires NumberAt(s, j + 1, k, 0xFF) && CrCrAt(s, k)
    ensures ParseNetworkRegistration(s, i) ==
      match (NetworkRegistrationModeOf(CodeAt(s, i + 7, j)), NetworkRegistrationStatusOf(CodeAt(s, j + 1, k)))
      case (Some(mode), Some(status)) => Parsed(NetworkRegistration(mode, status, None, None), k + 2)
      case _ => Violation
  {
    NetworkRegistrationPieces(s, i, j, k);
    NoLocationPieces(s, k);
    NetworkRegistrationOf(s, i, Decimal(s[i + 7..j]), j, Decimal(s[j + 1..k]), k, None, k);
  }

  /**
    `+CREG: <mode>,<status>,"<location>","<cell>"\r\r`: mode and status
    decoded, and the location and cell id as the quoted texts give them.
  */
  lemma NetworkRegistrationWithLocationAt(s: string, i: nat, j: nat, k: nat, n: nat, e: nat)
    requires i + 7 <= |s| && s[i..i + 7] == "+CREG: "
    requires NumberAt(s, i + 7, j, 0xFF) && s[j] == ','
    requires NumberAt(s, j + 1, k, 0xFF) && LocationText(s, k, n, e) && CrCrAt(s, e)
    ensures ParseNetworkRegistration(s, i) ==
      match (NetworkRegistrationModeOf(CodeAt(s, i + 7, j)), NetworkRegistrationStatusOf(CodeAt(s, j + 1, k)))
      case (Some(mode), Some(status)) =>
        Parsed(NetworkRegistration(mode, status, Some(s[k + 2..n - 1]), Some(s[n + 2..e - 1])), e + 2)
      case _ => Violation
  {
    NetworkRegistrationPieces(s, i, j, k);
    LocationPieces(s, k, n, e);
    NetworkRegistrationOf(s, i, Decimal(s[i + 7..j]), j, Decimal(s[j + 1..k]), k,
                          Some(LocationFields(s[k + 2..n - 1], s[n + 2..e - 1])), e);
  }

  /** `+CMTI: <storage>,<index>\r` from what its fields read: an unknown storage is a violation. */
  lemma NewSmsOf(s: string, i: nat, storage: Option<SmsMessageStorage>, q: nat, index: nat, x: nat)
    requires i <= |s| && Tag("+CMTI: ", s, i) == Parsed((), i + 7)
    requires q <= |s| && SmsStorage(s, i + 7) == Known(storage, q) && Char(',', s, q) == Parsed((), q + 1)
    requires Unsigned(0xFFFF, s, q + 1) == Parsed(index, x) && Char('\r', s, x) == Parsed((), x + 1)
    ensures ParseNewSmsMessages(s, i) ==
      match storage
      case Some(v) => Parsed(NewSmsMessage(v, index as uint16), x + 1)
      case None => Violation
  {
  }

  /** The fields of a `+CMTI` line, read off its layout. */
  lemma NewSmsPieces(s: string, i: nat, q: nat, x: nat)
    ensures (&& i + 7 <= |s| && s[i..i + 7] == "+CMTI: " && QuotedAt(s, i + 7, q)
             && q < |s| && s[q] == ',' && NumberAt(s, q + 1, x, 0xFFFF) && s[x] == '\r') ==>
      && Tag("+CMTI: ", s, i) == Parsed((), i + 7)
      && SmsStorage(s, i + 7) == Known(SmsMessageStorageOf(s[i + 8..q - 1]), q)
      && Char(',', s, q) == Parsed((), q + 1)
      && Unsigned(0xFFFF, s, q + 1) == Parsed(Decimal(s[q + 1..x]), x)
      && Char('\r', s, x) == Parsed((), x + 1)
  {
    if && i + 7 <= |s| && s[i..i + 7] == "+CMTI: " && QuotedAt(s, i + 7, q)
       && q < |s| && s[q] == ',' && NumberAt(s, q + 1, x, 0xFFFF) && s[x] == '\r'
    {
      TagMatches("+CMTI: ", s, i);
      QuotedTextExact(s, i + 7, q);
      UnsignedExact(0xFFFF, s, q + 1, x);
    }
  }

  /**
    `+CMTI: "<storage>",<index>\r`: the storage named by its text and the
    index as written, the frame ending at the single carriage return; an
    unknown storage is a violation.
  */
  lemma NewSmsAt(s: string, i: nat, q: nat, x: nat)
    requires i + 7 <= |s| && s[i..i + 7] == "+CMTI: " && QuotedAt(s, i + 7, q)
    requires q < |s| && s[q] == ',' && NumberAt(s, q + 1, x, 0xFFFF) && s[x] == '\r'
    ensures ParseNewSmsMessages(s, i) ==
      match SmsMessageStorageOf(s[i + 8..q - 1])
      case Some(storage) => Parsed(NewSmsMessage(storage, Decimal(s[q + 1..x]) as uint16), x + 1)
      case None => Violation
  {
    NewSmsPieces(s, i, q, x);
    NewSmsOf(s, i, SmsMessageStorageOf(s[i + 8..q - 1]), q, Decimal(s[q + 1..x]), x);
  }
}
