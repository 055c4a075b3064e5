/** The typed device responses (`Response` and its parts in src/parser.rs). */
module Responses {

  import opened Base
  import opened Codes
  import opened Calendar

  datatype EquipmentErrorSource = Mobile | Service

  datatype MobileEquipmentError =
    | Disabled
    | Code(source: EquipmentErrorSource, code: uint16)
    | Message(source: EquipmentErrorSource, message: string)

  datatype Response =
    | Ok
    | Error(error: MobileEquipmentError)
    | OperatorSelection(selectionMode: OperatorSelectionMode, format: Option<OperatorSelectionFormat>, operator: Option<string>)
    | NetworkRegistration(registrationMode: NetworkRegistrationMode, registrationStatus: NetworkRegistrationStatus,
                          location: Option<string>, cellId: Option<string>)
    | PhoneActivity(activityStatus: PhoneActivityStatus)
    | SignalQuality(rssi: SignalQualityRssi, errorRate: SignalQualityErrorRate)
    | BatteryCharge(chargeStatus: BatteryChargeStatus, level: uint8, voltage: uint16)
    | ListSmsMessage(index: uint16, messageStatus: SmsMessageStatus, address: string, addressText: Option<string>,
                     timestamp: UtcDateTime, text: string)
    | ReadSmsMessage(messageStatus: SmsMessageStatus, address: string, addressText: Option<string>,
                     timestamp: UtcDateTime, text: string)
    | NewSmsMessage(storage: SmsMessageStorage, index: uint16)
    | ListCurrentCalls(index: uint16, direction: CallDirection, state: CallState, callMode: CallMode,
                       multiparty: CallMultiparty, number: Option<string>, numberType: Option<uint16>, name: Option<string>)
    | CallReady
    | SmsReady
    | Ring
    | NoCarrier
    | Empty

  /** The values that end the responses to one command: an acknowledgement or any error. */
  predicate IsTerminal(r: Response): (b: bool)
    ensures b ==> !IsStatusLine(r) && r != Empty
    ensures r == Ok || r.Error? ==> b
  {
    r.Ok? || r.Error?
  }

  /**
    The responses whose frame ends with a doubled carriage return: the
    structured status lines and the message listings.
  */
  predicate IsStatusLine(r: Response) {
    || r.OperatorSelection? || r.NetworkRegistration? || r.PhoneActivity? || r.SignalQuality?
    || r.BatteryCharge? || r.ListSmsMessage? || r.ReadSmsMessage? || r.ListCurrentCalls?
  }
}
