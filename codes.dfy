/**
  The fixed code tables of the SIM800 responses (the `From` conversions of
  src/parser.rs). A code outside a table has no entry (`None`); the source
  reaches `unreachable!()` there.
*/
module Codes {

  import opened Base

  datatype OperatorSelectionMode = Automatic | Manual | Unknown

  function OperatorSelectionModeOf(code: uint8): (r: Option<OperatorSelectionMode>)
    ensures r.Some? <==> code <= 4
    ensures r == Some(OperatorSelectionMode.Unknown) <==> 2 <= code <= 4
  {
    match code
    case 0 => Some(Automatic)
    case 1 => Some(Manual)
    case 2 | 3 | 4 => Some(OperatorSelectionMode.Unknown)
    case _ => None
  }

  datatype OperatorSelectionFormat = LongAlphanumeric | ShortAlphanumeric | Numeric

  function OperatorSelectionFormatOf(code: uint8): (r: Option<OperatorSelectionFormat>)
    ensures r.Some? <==> code <= 2
  {
    match code
    case 0 => Some(LongAlphanumeric)
    case 1 => Some(ShortAlphanumeric)
    case 2 => Some(Numeric)
    case _ => None
  }

  datatype NetworkRegistrationMode = DisableRegistration | EnableRegistration | EnableLocationRegistration

  function NetworkRegistrationModeOf(code: uint8): (r: Option<NetworkRegistrationMode>)
    ensures r.Some? <==> code <= 2
  {
    match code
    case 0 => Some(DisableRegistration)
    case 1 => Some(EnableRegistration)
    case 2 => Some(EnableLocationRegistration)
    case _ => None
  }

  datatype NetworkRegistrationStatus = Registered | SearchingOperator | RegistratonDenied | Unknown | RegisteredRoaming

  /** Status 0 ("not registered, not searching") has no entry. */
  function NetworkRegistrationStatusOf(code: uint8): (r: Option<NetworkRegistrationStatus>)
    ensures r.Some? <==> 1 <= code <= 5
  {
    match code
    case 1 => Some(Registered)
    case 2 => Some(SearchingOperator)
    case 3 => Some(RegistratonDenied)
    case 4 => Some(NetworkRegistrationStatus.Unknown)
    case 5 => Some(RegisteredRoaming)
    case _ => None
  }

  datatype PhoneActivityStatus = Ready | Unknown | Ringing | CallInProgress

  /** Code 1 has no entry. */
  function PhoneActivityStatusOf(code: uint8): (r: Option<PhoneActivityStatus>)
    ensures r.Some? <==> code == 0 || 2 <= code <= 4
  {
    match code
    case 0 => Some(Ready)
    case 2 => Some(PhoneActivityStatus.Unknown)
    case 3 => Some(Ringing)
    case 4 => Some(CallInProgress)
    case _ => None
  }

  /** Received signal strength in dBm. */
  datatype SignalQualityRssi = Value(dbm: int8) | Unknown

  /**
    The signal-strength table. The steps of 2..30 are computed in `int8`
    arithmetic as in the source, so every intermediate value is checked
    against the 8-bit range.
  */
  function SignalQualityRssiOf(code: uint8): (r: Option<SignalQualityRssi>)
    ensures r.Some? <==> code <= 31 || code == 99
    ensures r == Some(SignalQualityRssi.Unknown) <==> code == 99
    ensures 2 <= code <= 30 ==> r == Some(SignalQualityRssi.Value((-114 + 2 * (code as int)) as int8))
    ensures r.Some? && r.value.Value? ==> -115 <= r.value.dbm <= -52
  {
    match code
    case 0 => Some(SignalQualityRssi.Value(-115))
    case 1 => Some(SignalQualityRssi.Value(-111))
    case 31 => Some(SignalQualityRssi.Value(-52))
    case 99 => Some(SignalQualityRssi.Unknown)
    case _ =>
      if 2 <= code <= 30 then
        var step: int8 := code as int as int8;
        Some(SignalQualityRssi.Value(-110 + step * 2 - 4))
      else None
  }

  /** Bit error rate, in the table's units. */
  datatype SignalQualityErrorRate = Value(rate: uint8) | Unknown

  function Pow2(n: nat): nat {
    if n == 0 then 1 else 2 * Pow2(n - 1)
  }

  /** The error-rate table: code 0 reads 0, codes 1..7 read 2 to the power of the code. */
  function SignalQualityErrorRateOf(code: uint8): (r: Option<SignalQualityErrorRate>)
    ensures r.Some? <==> code <= 7 || code == 99
    ensures r == Some(SignalQualityErrorRate.Unknown) <==> code == 99
    ensures r == Some(SignalQualityErrorRate.Value(0)) <==> code == 0
    ensures 1 <= code <= 7 ==> r == Some(SignalQualityErrorRate.Value(Pow2(code as nat) as uint8))
  {
    match code
    case 0 => Some(SignalQualityErrorRate.Value(0))
    case 1 => Some(SignalQualityErrorRate.Value(2))
    case 2 => Some(SignalQualityErrorRate.Value(4))
    case 3 => Some(SignalQualityErrorRate.Value(8))
    case 4 => Some(SignalQualityErrorRate.Value(16))
    case 5 => Some(SignalQualityErrorRate.Value(32))
    case 6 => Some(SignalQualityErrorRate.Value(64))
    case 7 => Some(SignalQualityErrorRate.Value(128))
    case 99 => Some(SignalQualityErrorRate.Unknown)
    case _ => None
  }

  datatype BatteryChargeStatus = NotCharging | Charging | Finished

  function BatteryChargeStatusOf(code: uint8): (r: Option<BatteryChargeStatus>)
    ensures r.Some? <==> code <= 2
  {
    match code
    case 0 => Some(NotCharging)
    case 1 => Some(Charging)
    case 2 => Some(Finished)
    case _ => None
  }

  datatype SmsMessageStatus = ReceivedUnread | ReceivedRead | StoredUnsent | StoredSent

  function SmsMessageStatusOf(text: string): (r: Option<SmsMessageStatus>)
    ensures r.Some? <==> text in {"REC UNREAD", "REC READ", "STO UNSEND", "STO SEND"}
  {
    match text
    case "REC UNREAD" => Some(ReceivedUnread)
    case "REC READ" => Some(ReceivedRead)
    case "STO UNSEND" => Some(StoredUnsent)
    case "STO SEND" => Some(StoredSent)
    case _ => None
  }

  datatype SmsMessageStorage = Sim | Phone

  function SmsMessageStorageOf(text: string): (r: Option<SmsMessageStorage>)
    ensures r.Some? <==> text == "SM" || text == "ME"
  {
    match text
    case "SM" => Some(Sim)
    case "ME" => Some(Phone)
    case _ => None
  }

  datatype CallDirection = MobileOriginated | MobileTerminated

  function CallDirectionOf(code: uint8): (r: Option<CallDirection>)
    ensures r.Some? <==> code <= 1
  {
    match code
    case 0 => Some(MobileOriginated)
    case 1 => Some(MobileTerminated)
    case _ => None
  }

  datatype CallState = Active | Held | Dialing | Alerting | Incoming | Waiting | Disconnect

  function CallStateOf(code: uint8): (r: Option<CallState>)
    ensures r.Some? <==> code <= 6
  {
    match code
    case 0 => Some(Active)
    case 1 => Some(Held)
    case 2 => Some(Dialing)
    case 3 => Some(Alerting)
    case 4 => Some(Incoming)
    case 5 => Some(Waiting)
    case 6 => Some(Disconnect)
    case _ => None
  }

  datatype CallMode = Voice | Data | Fax

  function CallModeOf(code: uint8): (r: Option<CallMode>)
    ensures r.Some? <==> code <= 2
  {
    match code
    case 0 => Some(Voice)
    case 1 => Some(Data)
    case 2 => Some(Fax)
    case _ => None
  }

  datatype CallMultiparty = NoMultiparty | Multiparty

  function CallMultipartyOf(code: uint8): (r: Option<CallMultiparty>)
    ensures r.Some? <==> code <= 1
  {
    match code
    case 0 => Some(NoMultiparty)
    case 1 => Some(Multiparty)
    case _ => None
  }
}
