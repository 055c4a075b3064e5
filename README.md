# SIM800 response reader, modelled in Dafny

This project models the sequential core of a reader for the SIM800 GSM
modem. It has two halves.

- **The response grammar** of `src/parser.rs`. `parse(data)` recognises one
  leading device response in a text buffer and returns one of three results:
  - the response and the unconsumed tail;
  - `Incomplete`, when more input is needed;
  - an error, when the text is malformed.

  It is an ordered alternation of eighteen response parsers built from nom's
  *streaming* primitives. Behind it sit:
  - the fixed code tables that turn numeric codes and quoted names into
    enumerations;
  - the UCS2 hex text decoder;
  - the quoted timestamp decoder.
- **The framing and correlation logic** of `src/sim800/mod.rs`:
  - the reader loop, which gathers serial bytes into lines, drops echoed
    command lines, and feeds the rest to `parse` through a pending text;
  - the three drain loops of `send`, `send_one` and `send_list`, which take
    the queued responses up to the first `OK` or error.

Layout, one module per file:

| file | module | contents |
|---|---|---|
| `base.dfy` | `Base` | fixed-width integers, `Option` |
| `codes.dfy` | `Codes` | the code tables (the `From` conversions) |
| `calendar.dfy` | `Calendar` | calendar dates, times of day, the UTC date-time record |
| `response.dfy` | `Responses` | the `Response` type and its parts |
| `streaming.dfy` | `Streaming` | nom's streaming `tag`, `char`, `u8`/`u16`, `i8`/`i16`, `is_not`, `hex_digit0`, `opt`, restated |
| `ucs2.dfy` | `Ucs2` | `ucs2_to_uft8` as a loop, its specification and its inverse |
| `parser.dfy` | `Parser` | every response parser, `parser()` and `parse` |
| `stability.dfy` | `ParserStability` | the streaming property of every parser |
| `facts.dfy` | `ParseFacts` | what `parse` promises: streaming, priority, terminators |
| `fields.dfy` | `FieldFacts` | the quoted, hex and timestamp fields read exactly |
| `statuslines.dfy` | `StatusLines` | the fields each status line and message listing decodes, at its own parser |
| `replies.dfy` | `Replies` | what `parse` returns for those lines, and worked replies |
| `reader.dfy` | `Reader` | the reader loop: a class updated in place, its specification, and lemmas |
| `commands.dfy` | `Commands` | the drain loops: a class over the queued responses, and lemmas |

## How the model is built

### Parser outcomes and results

Each parser reads the whole buffer from an absolute position and gives one of
four outcomes:
- `Parsed(value, pos)`;
- `Short`, which is nom's `Incomplete`;
- `Mismatch`, which is nom's `Error`;
- `Violation`.

`Violation` stands for a code table meeting a code it has no entry for. The
source reaches `unreachable!()` there, so the reader thread panics.

`parse` gives a `ParseResult` with a fourth case, `ProtocolViolation`, for that
panic. Its other cases are:
- `Success(response, tail)`;
- `Incomplete`;
- `Malformed`, which is the source's `Error(String)`. The message text is not
  modelled.

### The streaming property

The property is named `Stable`. Run on any prefix `s[..k]` of a buffer, every
parser either asks for more input or gives exactly the outcome it gives on the
whole buffer. It is proved parser by parser in `ParserStability`. `ParseFacts`
lifts it to `parse` in two forms:
- a decided result never changes when more data arrives;
- every strict prefix of a recognised frame is `Incomplete`.

### The reader

The reader is the class `Reader.ResponseReader`. Its fields are `line`, `text`,
`emitted` and `panicked`, where `emitted` stands for the channel to the command
side.

Its methods are proved against pure functions:
- `Step` against `Next`;
- `Run` against `RunFrom`.

These functions take the parse function as a parameter. The class passes
`Parser.Parse`. The lemmas are therefore proved once for every parser, and
instantiated with `Parse` where a concrete reply is shown.

### The drain loops

The drain loops are methods of `Commands.Modem`. They work over
`responses: seq<Response>`, the queued and not yet taken contents of the
channel.

### Behaviour of the source that the model keeps

- **Empty quoted text.** `parse_quoted_text` on the empty quotes `""` yields
  the two quote characters themselves, not the empty string. The `tag`
  alternative returns the text it matched (src/parser.rs:393-395).
- **`+CMTI` and a second carriage return.** A new-message notice `+CMTI` ends
  at its first carriage return. A second one is left in the tail. There it
  waits for the next completed line, and `parse` reads it as an `Empty`
  response.
- **A malformed line drops pending text.** Such a line empties `text`,
  including a status line whose second carriage return was still awaited
  (`Reader.PendingFrameDropped`).
- **A malformed line resynchronises the reader.** After it, the next frame is
  read on its own (`Reader.ResynchronisesAfterMalformed`).
- **A read time-out ends the reader.** The port is opened with a ten-second
  time-out (src/main.rs:25), and the `?` on `read` (src/sim800/mod.rs:54)
  ends the reader thread on the error. In the model this is `ReadFailed`,
  which ends `Run` with `ReadError`. After that the channel is closed, so
  every later drain returns at once with what was still queued.
- **Unknown operator format.** In `+COPS` the format code is converted only in
  the final mapping. An unknown format is therefore a violation only once
  the whole line, terminator included, has matched.

The alternation is written as four groups, nested with the same
first-non-mismatch rule as nom's `alt` (`Parser.Alt`). This is the same
eighteen alternatives in the same order as `parser()`.

## Model

| member | source | states |
|---|---|---|
| Codes.OperatorSelectionModeOf | src/parser.rs:51-60 | a mode exists exactly for codes 0 to 4; codes 2, 3 and 4 all give `Unknown`; any other code has no entry (the source's `unreachable!`) |
| Codes.OperatorSelectionFormatOf | src/parser.rs:69-78 | a format exists exactly for codes 0 to 2 |
| Codes.NetworkRegistrationModeOf | src/parser.rs:87-96 | a mode exists exactly for codes 0 to 2 |
| Codes.NetworkRegistrationStatusOf | src/parser.rs:107-118 | a status exists exactly for codes 1 to 5; status 0 has no entry |
| Codes.PhoneActivityStatusOf | src/parser.rs:128-138 | a status exists exactly for codes 0, 2, 3 and 4; code 1 has no entry |
| Codes.SignalQualityRssiOf | src/parser.rs:146-157 | an entry exists exactly for codes 0 to 31 and 99; only 99 is `Unknown`; codes 2 to 30 read -114 + 2 x code dBm; every value lies in -115..-52 |
| Codes.SignalQualityErrorRateOf | src/parser.rs:165-180 | an entry exists exactly for codes 0 to 7 and 99; only 99 is `Unknown`; only code 0 reads 0; codes 1 to 7 read 2 to the power of the code |
| Codes.BatteryChargeStatusOf | src/parser.rs:189-198 | a status exists exactly for codes 0 to 2 |
| Codes.SmsMessageStatusOf | src/parser.rs:208-218 | a status exists exactly for the four texts `REC UNREAD`, `REC READ`, `STO UNSEND`, `STO SEND` |
| Codes.SmsMessageStorageOf | src/parser.rs:226-234 | a storage exists exactly for `SM` and `ME` |
| Codes.CallDirectionOf | src/parser.rs:242-250 | a direction exists exactly for codes 0 and 1 |
| Codes.CallStateOf | src/parser.rs:263-276 | a state exists exactly for codes 0 to 6 |
| Codes.CallModeOf | src/parser.rs:285-294 | a mode exists exactly for codes 0 to 2 |
| Codes.CallMultipartyOf | src/parser.rs:302-310 | a value exists exactly for codes 0 and 1 |
| Calendar.DaysInMonth | src/parser.rs:422 | every month has 28 to 31 days; February has 29 exactly in a leap year |
| Calendar.LeapYearRule | src/parser.rs:422 | the Gregorian rule: every fourth year, except centuries, except every fourth century |
| Calendar.ValidDateBounds | src/parser.rs:422 | a valid date has a month 1..12 and a day 1..31, at most 30 in April, June, September and November, at most 29 in February and 29 only in a leap year; any day 1..28 of any month of a year -9999..9999 is valid |
| Calendar.ValidTimeBound | src/parser.rs:423 | a valid time of day lies within the 86400 seconds of one day |
| Calendar.NewUtc | src/parser.rs:421-425 | a date-time results exactly when the month is 1..12, the day exists in that month and year (years -9999..9999), and hour, minute and second are in range; it then holds exactly the given fields and is valid |
| Ucs2.GroupValue | src/parser.rs:379-385 | four hex digits give a 16-bit value |
| Ucs2.Decode | src/parser.rs:375-391 | the decoded text has at most one character per four input characters |
| Ucs2.Ucs2ToUtf8 | src/parser.rs:375-391 | the loop that pulls four characters per round returns exactly `Decode` of its input |
| Ucs2.ScalarRange | src/parser.rs:385 | `char::from_u32` accepts exactly the code points up to 0x10FFFF outside the surrogates 0xD800..0xDFFF |
| Ucs2.HexDigit | src/parser.rs:380 | encoder partner of the hex digit conversion, used to state the inputs of the worked lemmas: a value below 16 has a hex digit whose value it is |
| Ucs2.EncodeChar | src/parser.rs:379-385 | encoder partner of one decoding round: a character of the Basic Multilingual Plane has four hex digits that group back to its code |
| Ucs2.Encode | src/parser.rs:375-391 | encoder partner of the decoder, the inverse used by `DecodeEncode`: it writes four characters per character |
| Ucs2.DecodeEncode | src/parser.rs:375-391 | decoding the encoding of a text of Basic Multilingual Plane characters gives the text back, and a trailing remainder of fewer than four characters is dropped |
| Ucs2.EncodeCharDecodes | src/parser.rs:379-387 | the group of one character decodes to that character, in front of whatever follows |
| Ucs2.SurrogateSkipped | src/parser.rs:385-387 | a group whose value is a surrogate adds nothing to the result |
| Streaming.Tag | src/parser.rs:5 | `tag` never violates; its success consumes exactly the word |
| Streaming.TagMeaning | src/parser.rs:5 | `tag` succeeds exactly when the word is there, and is short exactly when the buffer ends inside a prefix of the word |
| Streaming.TagMatches | src/parser.rs:5 | `tag` succeeds, after the word, on a buffer that holds the word |
| Streaming.TagMismatchAt | src/parser.rs:5 | one differing character inside the buffer makes `tag` a mismatch, even when the buffer is short |
| Streaming.Char | src/parser.rs:6 | `char` is short exactly at the end of the buffer and succeeds exactly on the expected character, consuming it |
| Streaming.Digits | src/parser.rs:10-11 | the digit loop stops at a non-digit inside the buffer with a value within the bound |
| Streaming.Unsigned | src/parser.rs:10-11 | `u8`/`u16` succeed only after consuming at least one character and ending on a digit, inside the buffer, with a value within the bound |
| Streaming.UnsignedMeaning | src/parser.rs:10-11 | a parsed number is the decimal value of the digit run, ended by a non-digit; a short result means the buffer ended in digits |
| Streaming.UnsignedExact | src/parser.rs:10-11 | on a digit run that fits and is ended by a non-digit, `u8`/`u16` give its value and stop after it |
| Streaming.UnsignedShort | src/parser.rs:10-11 | digits that run to the end of the buffer within the bound ask for more input |
| Streaming.Signed | src/parser.rs:8-9 | `i8`/`i16` succeed only with a value within their range, after consuming at least one character and stopping inside the buffer |
| Streaming.SignedMeaning | src/parser.rs:8-9 | a parsed signed number is the decimal value of the digit run after the optional sign, negated after a minus, within the bound for its sign and ended by a non-digit; a short result means the buffer ended in the sign or the digits |
| Streaming.SignedExact | src/parser.rs:8-9 | on an optional sign and a digit run that fits, ended inside the buffer, `i8`/`i16` give its signed value and stop after it |
| Streaming.SignedShort | src/parser.rs:8-9 | a sign and digits that run to the end of the buffer within the bound ask for more input |
| Streaming.IsNot | src/parser.rs:4 | `is_not` succeeds only on a non-empty run without the stop character that is ended by it inside the buffer, and returns that run |
| Streaming.IsNotExact | src/parser.rs:4 | on a non-empty run ended by the stop character inside the buffer, `is_not` returns exactly that run |
| Streaming.Span | src/parser.rs:4 | the run of characters satisfying the predicate from a position: every character in it satisfies it, and it ends at the first one that does not or at the end of the buffer |
| Streaming.HexDigits | src/parser.rs:7 | `hex_digit0` returns the possibly empty run of hex digits, which must be ended inside the buffer |
| Streaming.HexDigitsExact | src/parser.rs:7 | on a run of hex digits ended inside the buffer, `hex_digit0` returns exactly that run |
| Streaming.Optional | src/parser.rs:14 | `opt` turns exactly a mismatch into an absent value at the same position and keeps the other outcomes |
| Streaming.TagStable | src/parser.rs:5 | `tag` on a prefix of the buffer is short or final |
| Streaming.DigitsStable | src/parser.rs:10-11 | the digit loop on a prefix is short or final |
| Streaming.SpanStable | src/parser.rs:4 | a character run found in a prefix ends where it ends in the whole buffer, or at the end of the prefix |
| Streaming.CharStable | src/parser.rs:6 | `char` on a prefix is short or final |
| Streaming.UnsignedStable | src/parser.rs:10-11 | `u8`/`u16` on a prefix are short or final |
| Streaming.SignedStable | src/parser.rs:8-9 | `i8`/`i16` on a prefix are short or final |
| Streaming.IsNotStable | src/parser.rs:4 | `is_not` on a prefix is short or final |
| Streaming.HexDigitsStable | src/parser.rs:7 | `hex_digit0` on a prefix is short or final |
| Streaming.OptionalStable | src/parser.rs:14 | `opt` keeps the short-or-final relation |
| Parser.CrCr | src/parser.rs:497 | the status-line terminator consumes exactly two carriage returns |
| Parser.QuotedText | src/parser.rs:393-395 | a quoted text consumes at least one character and never violates |
| Parser.QuotedHex | src/parser.rs:397-399 | a quoted hex text consumes at least one character and never violates |
| Parser.StringHex | src/parser.rs:401-403 | a bare hex text stops inside the buffer and never violates |
| Parser.TimestampFields | src/parser.rs:405-420 | the timestamp tuple consumes at least one character and never violates |
| Parser.Timestamp | src/parser.rs:405-428 | a decoded timestamp is always a valid date and time of day |
| Parser.Coded | src/parser.rs:430-486 | a code field succeeds exactly with the table's entry, is a violation exactly when the code has no entry, and is short exactly when the number is |
| Parser.Named | src/parser.rs:464-470 | a named field succeeds exactly with the table's entry, is a violation exactly when the name has no entry, and is short exactly when the text is |
| Parser.SmsStatus | src/parser.rs:464-466 | the message status consumes at least one character |
| Parser.SmsStorage | src/parser.rs:468-470 | the storage name consumes at least one character |
| Parser.Literal | src/parser.rs:685-687 | a fixed response succeeds only on exactly its text, with its value |
| Parser.ParseOk | src/parser.rs:685-687 | `OK` succeeds only as `Ok`, on a frame ending in one carriage return |
| Parser.ParseError | src/parser.rs:689-693 | `ERROR` succeeds only as `Error(Disabled)`, on a frame ending in one carriage return |
| Parser.CodedError | src/parser.rs:698-713 | an error with a code succeeds only as a `Code` error from the given source, after the given tag, whose code is the decimal value of the digits between the tag and the single carriage return |
| Parser.ParseErrorCode | src/parser.rs:695-716 | `parse_error_code` never reports a violation, consumes within the input, and succeeds only with a `Code` error whose frame ends at its single carriage return |
| Parser.ParseErrorCodeMeaning | src/parser.rs:695-716 | a code error `parse_error_code` reads opens with the tag of its source (`+CME ERROR: ` or `+CMS ERROR: `), and its code is the decimal value of the digits up to the single carriage return |
| Parser.MessageError | src/parser.rs:721-736 | an error with a text succeeds only as a `Message` error from the given source, after the given tag, holding the non-empty text between the tag and the first carriage return |
| Parser.ParseErrorMessage | src/parser.rs:718-739 | `parse_error_message` never reports a violation, consumes within the input, and succeeds only with a `Message` error whose frame ends at its single carriage return |
| Parser.ParseErrorMessageMeaning | src/parser.rs:718-739 | a text error `parse_error_message` reads opens with the tag of its source, and its text is everything between the tag and the first carriage return |
| Parser.ParseCallReady | src/parser.rs:741-743 | succeeds only as `CallReady`, on a single carriage return |
| Parser.ParseSmsReady | src/parser.rs:745-747 | succeeds only as `SmsReady`, on a single carriage return |
| Parser.ParseRing | src/parser.rs:749-751 | succeeds only as `Ring`, on a single carriage return |
| Parser.ParseNoCarrier | src/parser.rs:753-755 | succeeds only as `NoCarrier`, on a single carriage return |
| Parser.OperatorArgs | src/parser.rs:493-496 | the optional format and operator group consumes at least one character and never violates |
| Parser.ParseOperatorSelection | src/parser.rs:488-505 | `+COPS` succeeds only as an operator selection on a frame ending in `\r\r`; the fields it decodes are stated by `StatusLines.OperatorModeAt` and `OperatorSelectionAt` |
| Parser.LocationArgs | src/parser.rs:514-522 | the optional location group consumes at least one character and never violates |
| Parser.ParseNetworkRegistration | src/parser.rs:507-532 | `+CREG` succeeds only as a network registration on a frame ending in `\r\r`; the fields it decodes are stated by `StatusLines.NetworkRegistrationAt` and `NetworkRegistrationWithLocationAt` |
| Parser.ParsePhoneActivityStatus | src/parser.rs:534-543 | `+CPAS` succeeds only as a phone activity status on a frame ending in `\r\r`; the fields it decodes are stated by `StatusLines.PhoneActivityAt` |
| Parser.ParseSignalQuality | src/parser.rs:545-556 | `+CSQ` succeeds only as a signal quality on a frame ending in `\r\r`; the fields it decodes are stated by `StatusLines.SignalQualityAt` |
| Parser.ParseBatteryCharge | src/parser.rs:558-575 | `+CBC` succeeds only as a battery charge on a frame ending in `\r\r`; the fields it decodes are stated by `StatusLines.BatteryChargeAt` |
| Parser.SmsMessageBody | src/parser.rs:584-592 | the fields shared by the message listings never violate and end in `\r\r` |
| Parser.SmsMessageSender | src/parser.rs:584-588 | the address and optional name part of a listing never violates |
| Parser.SmsMessageText | src/parser.rs:590-592 | the text part after the timestamp never violates and ends in `\r\r` |
| Parser.SmsMessageContent | src/parser.rs:589-592 | the timestamp and text part never violates and ends in `\r\r` |
| Parser.ParseListSmsMessages | src/parser.rs:577-605 | `+CMGL` succeeds only as a listed message on a frame ending in `\r\r`; the fields it decodes are stated by `StatusLines.ListSmsAt` |
| Parser.ParseReadSmsMessages | src/parser.rs:607-632 | `+CMGR` succeeds only as a read message on a frame ending in `\r\r`; the fields it decodes are stated by `StatusLines.ReadSmsAt` |
| Parser.ParseNewSmsMessages | src/parser.rs:634-645 | `+CMTI` succeeds only as a new-message notice on a frame ending in one carriage return that is not doubled; the fields it decodes are stated by `StatusLines.NewSmsAt` |
| Parser.CallArgs | src/parser.rs:660-667 | the optional number group consumes at least one character and never violates |
| Parser.CallCodes | src/parser.rs:650-659 | the four coded call fields consume at least one character |
| Parser.ParseListCurrentCalls | src/parser.rs:647-683 | `+CLCC` succeeds only as a current call on a frame ending in `\r\r`; the fields it decodes are stated by `StatusLines.CallWithoutNumberAt` and `CallWithNumberAt` |
| Parser.ParseEmpty | src/parser.rs:757-759 | a lone carriage return succeeds only as `Empty` |
| Parser.Alt | src/parser.rs:761-782 | the choice is the first outcome, or the second when the first mismatches |
| Parser.Alternatives1 | src/parser.rs:763-767 | alternatives 1 to 5 give a frame that is ended as its kind of response requires |
| Parser.Alternatives2 | src/parser.rs:768-772 | alternatives 6 to 10 give a frame that is ended as its kind requires |
| Parser.Alternatives3 | src/parser.rs:773-776 | alternatives 11 to 14 give a frame that is ended as its kind requires |
| Parser.Alternatives4 | src/parser.rs:777-780 | alternatives 15 to 18 give a frame that is ended as its kind requires |
| Parser.ResponseAt | src/parser.rs:761-782 | `parser()` gives a frame of at least one character, ended in `\r\r` for status lines and listings and in a single carriage return otherwise |
| Parser.Decide | src/parser.rs:791-800 | a success leaves a proper suffix of the input as tail, after a frame ended as its kind requires |
| Parser.Parse | src/parser.rs:791-800 | on success the tail is a proper suffix of the input, so a non-empty prefix was consumed, and that frame is ended as its kind requires |
| ParserStability.CrCrStable | src/parser.rs:497 | the terminator on a prefix is short or final |
| ParserStability.CodedStable | src/parser.rs:430-486 | a code table keeps the short-or-final relation of its number |
| ParserStability.FieldStable | src/parser.rs:430-486 | a code field on a prefix is short or final |
| ParserStability.QuotedTextStable | src/parser.rs:393-395 | `parse_quoted_text` on a prefix is short or final |
| ParserStability.QuotedHexStable | src/parser.rs:397-399 | `parse_quoted_hex` on a prefix is short or final |
| ParserStability.StringHexStable | src/parser.rs:401-403 | `parse_string_hex` on a prefix is short or final |
| ParserStability.TimestampFieldsStable | src/parser.rs:406-420 | the timestamp tuple on a prefix is short or final |
| ParserStability.TimestampStable | src/parser.rs:405-428 | `parse_timestamp` on a prefix is short or final |
| ParserStability.SmsStatusStable | src/parser.rs:464-466 | the message status on a prefix is short or final |
| ParserStability.SmsStorageStable | src/parser.rs:468-470 | the storage name on a prefix is short or final |
| ParserStability.LiteralStable | src/parser.rs:685-759 | a fixed response on a prefix is short or final |
| ParserStability.CodedErrorStable | src/parser.rs:698-713 | an error with a code on a prefix is short or final |
| ParserStability.ParseErrorCodeStable | src/parser.rs:695-716 | `parse_error_code` on a prefix is short or final |
| ParserStability.MessageErrorStable | src/parser.rs:721-736 | an error with a text on a prefix is short or final |
| ParserStability.ParseErrorMessageStable | src/parser.rs:718-739 | `parse_error_message` on a prefix is short or final |
| ParserStability.OperatorArgsStable | src/parser.rs:493-496 | the operator group on a prefix is short or final |
| ParserStability.ParseOperatorSelectionStable | src/parser.rs:488-505 | `+COPS` on a prefix is short or final |
| ParserStability.LocationArgsStable | src/parser.rs:514-522 | the location group on a prefix is short or final |
| ParserStability.ParseNetworkRegistrationStable | src/parser.rs:507-532 | `+CREG` on a prefix is short or final |
| ParserStability.ParsePhoneActivityStatusStable | src/parser.rs:534-543 | `+CPAS` on a prefix is short or final |
| ParserStability.ParseSignalQualityStable | src/parser.rs:545-556 | `+CSQ` on a prefix is short or final |
| ParserStability.ParseBatteryChargeStable | src/parser.rs:558-575 | `+CBC` on a prefix is short or final |
| ParserStability.SmsMessageBodyStable | src/parser.rs:584-592 | the listing fields on a prefix are short or final |
| ParserStability.SmsMessageSenderStable | src/parser.rs:584-588 | the sender part on a prefix is short or final |
| ParserStability.SmsMessageTextStable | src/parser.rs:590-592 | the text part on a prefix is short or final |
| ParserStability.SmsMessageContentStable | src/parser.rs:589-592 | the timestamp and text part on a prefix is short or final |
| ParserStability.ParseListSmsMessagesStable | src/parser.rs:577-605 | `+CMGL` on a prefix is short or final |
| ParserStability.ParseReadSmsMessagesStable | src/parser.rs:607-632 | `+CMGR` on a prefix is short or final |
| ParserStability.ParseNewSmsMessagesStable | src/parser.rs:634-645 | `+CMTI` on a prefix is short or final |
| ParserStability.CallCodesStable | src/parser.rs:650-659 | the coded call fields on a prefix are short or final |
| ParserStability.CallArgsStable | src/parser.rs:660-667 | the number group on a prefix is short or final |
| ParserStability.ParseListCurrentCallsStable | src/parser.rs:647-683 | `+CLCC` on a prefix is short or final |
| ParserStability.AltStable | src/parser.rs:761-782 | `alt` keeps the short-or-final relation of its alternatives |
| ParserStability.Alternatives1Stable | src/parser.rs:763-767 | alternatives 1 to 5 on a prefix are short or final |
| ParserStability.Alternatives2Stable | src/parser.rs:768-772 | alternatives 6 to 10 on a prefix are short or final |
| ParserStability.Alternatives3Stable | src/parser.rs:773-776 | alternatives 11 to 14 on a prefix are short or final |
| ParserStability.Alternatives4Stable | src/parser.rs:777-780 | alternatives 15 to 18 on a prefix are short or final |
| ParserStability.ResponseAtStable | src/parser.rs:761-782 | `parser()` on a prefix is short or final |
| ParseFacts.ParseExtends | src/parser.rs:791-800 | a result of `parse` other than `Incomplete` is final: appending data changes neither the response nor where its frame ends, only the tail grows |
| ParseFacts.DecidedExtends | src/parser.rs:791-800 | the mapping of outcomes to results carries a short-or-final relation over to the extended buffer |
| ParseFacts.FramePrefixIncomplete | src/parser.rs:797 | every strict prefix of a recognised frame, the empty one included, gives `Incomplete` |
| ParseFacts.OkFrame | src/parser.rs:685-687 | `OK\r` followed by anything is `Ok` with that rest as tail |
| ParseFacts.OkPrefixIncomplete | src/parser.rs:685-687 | every strict prefix of `OK\r` is `Incomplete` |
| ParseFacts.RingFrame | src/parser.rs:749-751 | `RING\r` followed by anything is `Ring` with that rest as tail |
| ParseFacts.RingPrefixIncomplete | src/parser.rs:749-751 | every strict prefix of `RING\r` is `Incomplete` |
| ParseFacts.EmptyFrame | src/parser.rs:757-782 | a lone carriage return matches none of the other alternatives and is `Empty`, with the rest as tail |
| ParseFacts.CodeErrorAt | src/parser.rs:695-716 | on `+CME ERROR: <digits>\r` or `+CMS ERROR: <digits>\r` the first group of alternatives gives the `Code` error of that source holding the digits' value; a service error is reached once the mobile tag mismatches |
| ParseFacts.FirstGroupDecides | src/parser.rs:761-767 | a success of the first five alternatives is the result of `parse` |
| ParseFacts.CodeErrorLine | src/parser.rs:695-716 | the first group on an error line with digits followed by anything gives that `Code` error and stops after the carriage return |
| ParseFacts.EquipmentErrorCode | src/parser.rs:695-739 | `+CME ERROR: <digits>\r` and `+CMS ERROR: <digits>\r` are always the `Code` error of their source and value, never a `Message`, because the code alternatives come first |
| ParseFacts.MessageErrorAt | src/parser.rs:718-739 | on `+CME ERROR: <text>\r` or `+CMS ERROR: <text>\r` with a text not starting with a digit, both code alternatives mismatch and the message alternative of that source takes the text |
| ParseFacts.MessageErrorLine | src/parser.rs:718-739 | the first group on such a line followed by anything gives the `Message` error |
| ParseFacts.EquipmentErrorMessage | src/parser.rs:718-739 | an error line of either source with a text not starting with a digit is the `Message` error of that source holding that text |
| ParseFacts.NetworkRegistrationExampleAt | src/parser.rs:507-532 | `+CREG: 0,1\r\r` is decoded by its parser as registration disabled, registered, no location |
| ParseFacts.BeforeNetworkRegistration | src/parser.rs:761-771 | every alternative before `+CREG` mismatches on a line starting `+CR` |
| ParseFacts.NetworkRegistrationFrame | src/parser.rs:507-532 | `parse` of `+CREG: 0,1\r\r` followed by anything is that registration with the rest as tail |
| ParseFacts.NetworkRegistrationSingleCr | src/parser.rs:523 | `+CREG: 0,1\r` with one carriage return is `Incomplete`: the status line needs its second one |
| ParseFacts.NetworkRegistrationBroken | src/parser.rs:523 | the `+CREG` parser mismatches when the first carriage return is followed by another character |
| ParseFacts.AfterNetworkRegistration | src/parser.rs:773-780 | every alternative after `+CREG` mismatches on a line starting `+CR` |
| ParseFacts.InterruptedRegistration | src/parser.rs:761-798 | `+CREG: 0,1\r` followed by a line that does not start with a carriage return is malformed as a whole |
| ParseFacts.NewSmsExampleAt | src/parser.rs:634-645 | `+CMTI: "SM",3\r` is decoded by its parser as a new message in the SIM storage at index 3 |
| ParseFacts.BeforeNewSms | src/parser.rs:761-777 | every alternative before `+CMTI` mismatches on a line starting `+CMT` |
| ParseFacts.NewSmsFrame | src/parser.rs:634-645 | a new-message notice ends at its first carriage return; anything after it, a second carriage return included, is the tail |
| FieldFacts.Digit | src/parser.rs:405-428 | partner of the digit fields, used to state the inputs of the worked lemmas: a value below ten has a decimal digit whose value it is |
| FieldFacts.StampText | src/parser.rs:405-428 | partner of `parse_timestamp`, used to state the inputs of the worked lemmas: the device's layout written out, 22 characters between and including the quotes |
| FieldFacts.TwoDigitField | src/parser.rs:410-418 | two digits followed by a non-digit are read as their value |
| FieldFacts.TimestampFieldsOf | src/parser.rs:405-420 | the timestamp tuple reads a stamp in the device's layout as its fields, unchecked, with the year as 2000 plus the year field, and stops after the closing quote |
| FieldFacts.DateFieldsAt | src/parser.rs:407-413 | the date part of the layout reads as its year, month and day |
| FieldFacts.TimeFieldsAt | src/parser.rs:413-420 | the time part reads as hour, minute, second and zone |
| FieldFacts.TimestampDecodes | src/parser.rs:405-428 | a timestamp decodes to 2000 plus the year, with the zone ignored and the result in UTC, exactly when the date and time are valid; otherwise it is a mismatch |
| FieldFacts.CrCrExact | src/parser.rs:497 | two carriage returns are consumed exactly by the status-line terminator |
| FieldFacts.QuotedTextExact | src/parser.rs:393-395 | `parse_quoted_text` on a non-empty quoted text returns the characters between the quotes and stops after the closing one |
| FieldFacts.QuotedTextEmpty | src/parser.rs:393-395 | on the empty quotes `""` it returns the two quote characters themselves |
| FieldFacts.QuotedHexExact | src/parser.rs:397-399 | `parse_quoted_hex` returns the UCS2 decoding of the hex digits between the quotes |
| FieldFacts.StringHexExact | src/parser.rs:401-403 | `parse_string_hex` returns the UCS2 decoding of the hex run, ended inside the buffer |
| StatusLines.PhoneActivityOf | src/parser.rs:534-543 | the `+CPAS` parser is a violation as soon as the code has no table entry, and otherwise the activity status once the tag, the code and the terminator have read |
| StatusLines.PhoneActivityAt | src/parser.rs:534-543 | `+CPAS: <code>\r\r` gives the activity status the table has for the code, and stops after the terminator; a code without an entry is a violation |
| StatusLines.SignalQualityOf | src/parser.rs:545-556 | the `+CSQ` parser gives both table entries once its fields and the terminator have read, and a violation when either table lacks its code |
| StatusLines.SignalQualityAt | src/parser.rs:545-556 | `+CSQ: <rssi>,<rate>\r\r` gives the strength and the error rate the two tables have for the codes; a violation when either has no entry |
| StatusLines.BatteryChargeOf | src/parser.rs:558-575 | the `+CBC` parser gives the coded status with the level and voltage narrowed to 8 and 16 bits once its fields have read, and a violation for an unknown status |
| StatusLines.BatteryChargeAt | src/parser.rs:558-575 | `+CBC: <status>,<level>,<voltage>\r\r` gives the coded status with the level and voltage as written; a violation for an unknown status |
| StatusLines.OperatorModeOf | src/parser.rs:488-505 | when no format group follows the mode, the `+COPS` parser gives the mode alone, or a violation for an unknown mode |
| StatusLines.OperatorModeAt | src/parser.rs:488-505 | `+COPS: <mode>\r\r` gives the mode with no format and no operator |
| StatusLines.OperatorArgsOf | src/parser.rs:493-496 | the format group is the format code, narrowed to 8 bits, and the operator text its fields read |
| StatusLines.OperatorArgsAt | src/parser.rs:493-496 | the format group reads the format code and the quoted operator name, unconverted |
| StatusLines.OperatorSelectionOf | src/parser.rs:488-505 | with a format group, the `+COPS` parser decides in this order: an unknown mode is a violation, a missing terminator a mismatch, and only then an unknown format a violation |
| StatusLines.OperatorSelectionAt | src/parser.rs:488-505 | `+COPS: <mode>,<format>,"<operator>"\r\r` gives the mode, the format and the operator text; a violation when either code has no entry, the format being converted only after the terminator has matched |
| StatusLines.OperatorUnterminated | src/parser.rs:493-497 | with a known mode, an operator group followed by anything but `\r` is a mismatch whatever its format code, so an unknown format is never reported there |
| StatusLines.CallCodesOf | src/parser.rs:650-659 | the coded call fields give the four table entries from the numbers read, or a violation when any table lacks its code |
| StatusLines.CallCodesAt | src/parser.rs:650-659 | the four coded call fields give direction, state, mode and multiparty from their tables, or a violation |
| StatusLines.CallArgsOf | src/parser.rs:660-667 | the number group is the number, its type narrowed to 16 bits, and the name that its fields read |
| StatusLines.CallArgsAt | src/parser.rs:660-667 | the number group gives the number, its type and the name |
| StatusLines.ListCallsOf | src/parser.rs:647-683 | the `+CLCC` parser is a violation for unknown codes; otherwise it gives the index and the call fields, with number, type and name filled exactly when the number group reads |
| StatusLines.CallWithoutNumberAt | src/parser.rs:647-683 | `+CLCC: <index>,<codes>\r\r` gives the index and the decoded codes with number, type and name absent |
| StatusLines.CallWithNumberAt | src/parser.rs:647-683 | `+CLCC` with the number group gives the index, the decoded codes and the number, type and name |
| StatusLines.LocationArgsOf | src/parser.rs:514-522 | the location group is the location and cell id that its two quoted fields read |
| StatusLines.LocationPieces | src/parser.rs:514-523 | a written location group gives the two quoted texts as location and cell id, followed by the terminator |
| StatusLines.NoLocationPieces | src/parser.rs:514-523 | with no location group written the group mismatches and the terminator follows the status |
| StatusLines.NetworkRegistrationOf | src/parser.rs:507-532 | the `+CREG` parser decodes the mode and status from their tables and carries the location group over, or is a violation when either table lacks its code |
| StatusLines.NetworkRegistrationAt | src/parser.rs:507-532 | `+CREG: <mode>,<status>\r\r` gives the mode and status from their tables with location and cell id absent; an unknown mode or status, status 0 included, is a violation |
| StatusLines.NetworkRegistrationWithLocationAt | src/parser.rs:507-532 | `+CREG` with the location group gives mode and status from their tables and the location and cell id as quoted, or a violation |
| StatusLines.NewSmsOf | src/parser.rs:634-645 | the `+CMTI` parser is a violation for an unknown storage, and otherwise the storage and the index read, ending after the carriage return |
| StatusLines.NewSmsAt | src/parser.rs:634-645 | `+CMTI: "<storage>",<index>\r` gives the storage named by its text and the index as written, the frame ending at the single carriage return; an unknown storage is a violation |
| StatusLines.SmsAddressAt | src/parser.rs:584-586 | the quoted hex address is read up to the comma after it, as its UCS2 decoding |
| StatusLines.SmsNameAt | src/parser.rs:587-588 | the optional name is absent for an empty field and otherwise the UCS2 decoding of its quoted hex |
| StatusLines.SmsSenderOf | src/parser.rs:584-588 | the sender part is the address and optional name its fields read, ending after the comma before the stamp |
| StatusLines.SmsSenderAt | src/parser.rs:584-588 | the sender part gives the decoded address and name and stops after the comma before the stamp |
| StatusLines.SmsTextOf | src/parser.rs:590-592 | the text part is the hex text read between the carriage return and the terminator |
| StatusLines.SmsTextAt | src/parser.rs:590-592 | the text part gives the UCS2 decoding of the hex between the carriage return and the terminator |
| StatusLines.SmsContentOf | src/parser.rs:589-592 | the content part mismatches when the stamp does, and otherwise pairs the stamp's time with the text |
| StatusLines.SmsContentAt | src/parser.rs:589-592 | the content part gives the decoded stamp and text when the date and time are valid, and mismatches otherwise |
| StatusLines.SmsBodyOf | src/parser.rs:584-592 | the body joins the sender to the content part, and mismatches when the content part does |
| StatusLines.SmsBodyAt | src/parser.rs:584-592 | the body shared by the listings gives address, name, stamp and text, or a mismatch for an impossible date or time |
| StatusLines.ListSmsOf | src/parser.rs:577-605 | the `+CMGL` parser is a violation for an unknown status before the body is looked at, and otherwise combines the index and status with the body, mismatching when the body does |
| StatusLines.ListSmsAt | src/parser.rs:577-605 | `+CMGL: <index>,"<status>",<body>` gives the index, the status, and the body's address, name, stamp (with `TimestampDecodes`) and decoded text; a violation for an unknown status, a mismatch for an impossible date or time |
| StatusLines.SmsStatusAt | src/parser.rs:464-466 | a quoted status reads as the status its text names, or a violation for an unknown name |
| StatusLines.ReadSmsOf | src/parser.rs:607-632 | the `+CMGR` parser is a violation for an unknown status, and otherwise combines it with the body, mismatching when the body does |
| StatusLines.ReadSmsAt | src/parser.rs:607-632 | `+CMGR: "<status>",<body>` gives the status and the body's fields; a violation for an unknown status, a mismatch for an impossible date or time |
| Replies.RouteOperatorSelection | src/parser.rs:761-782 | on a line starting `+COPS: ` every other alternative mismatches, so `parser()` is the operator selection parser |
| Replies.RoutePhoneActivity | src/parser.rs:761-782 | on a line starting `+CPAS: `, `parser()` is the phone activity parser |
| Replies.RouteSignalQuality | src/parser.rs:761-782 | on a line starting `+CSQ: `, `parser()` is the signal quality parser |
| Replies.RouteBatteryCharge | src/parser.rs:761-782 | on a line starting `+CBC: `, `parser()` is the battery charge parser |
| Replies.RouteListSms | src/parser.rs:761-782 | on a line starting `+CMGL: `, `parser()` is the listing parser |
| Replies.RouteReadSms | src/parser.rs:761-782 | on a line starting `+CMGR: `, `parser()` is the read message parser |
| Replies.RouteCalls | src/parser.rs:761-782 | on a line starting `+CLCC: `, `parser()` is the current calls parser |
| Replies.RouteNetworkRegistration | src/parser.rs:761-782 | on a line starting `+CREG: `, `parser()` is the network registration parser |
| Replies.RouteNewSms | src/parser.rs:761-782 | on a line starting `+CMTI: `, `parser()` is the new message parser |
| Replies.OperatorSelectionDecides | src/parser.rs:791-800 | on a `+COPS` line `parse` gives the operator selection parser's response with the rest as tail, a malformed buffer for its mismatch, a protocol violation for its violation |
| Replies.PhoneActivityDecides | src/parser.rs:791-800 | likewise for `+CPAS` |
| Replies.SignalQualityDecides | src/parser.rs:791-800 | likewise for `+CSQ` |
| Replies.BatteryChargeDecides | src/parser.rs:791-800 | likewise for `+CBC` |
| Replies.CallsDecides | src/parser.rs:791-800 | likewise for `+CLCC` |
| Replies.ListSmsDecides | src/parser.rs:791-800 | likewise for `+CMGL`; with `StatusLines.ListSmsAt` it gives the reply to a listed message |
| Replies.ReadSmsDecides | src/parser.rs:791-800 | likewise for `+CMGR`; with `StatusLines.ReadSmsAt` it gives the reply to a read message |
| Replies.NetworkRegistrationDecides | src/parser.rs:791-800 | likewise for `+CREG` |
| Replies.NewSmsDecides | src/parser.rs:791-800 | likewise for `+CMTI` |
| Replies.PhoneActivityReply | src/parser.rs:534-543 | `parse` of `+CPAS: <code>\r\r` followed by anything is the activity status of the code with that rest as tail, or a protocol violation |
| Replies.SignalQualityReply | src/parser.rs:545-556 | `parse` of `+CSQ: <rssi>,<rate>\r\r` is the decoded signal quality with the rest as tail, or a protocol violation |
| Replies.BatteryChargeReply | src/parser.rs:558-575 | `parse` of `+CBC` is the coded status with the level and voltage as written, or a protocol violation |
| Replies.OperatorModeReply | src/parser.rs:488-505 | `parse` of `+COPS: <mode>\r\r` is the mode alone, or a protocol violation |
| Replies.OperatorSelectionReply | src/parser.rs:488-505 | `parse` of `+COPS` with a format group is mode, format and operator, or a protocol violation when either code is unknown |
| Replies.OperatorUnterminatedReply | src/parser.rs:493-497 | `parse` of a `+COPS` line with a known mode whose operator is not followed by `\r` is malformed |
| Replies.NetworkRegistrationReply | src/parser.rs:507-532 | `parse` of `+CREG: <mode>,<status>\r\r` is the decoded registration without location, with the rest as tail, or a protocol violation when either code is unknown |
| Replies.NetworkRegistrationWithLocationReply | src/parser.rs:507-532 | `parse` of `+CREG` with the location group is the decoded registration with location and cell id as quoted, or a protocol violation |
| Replies.NewSmsReply | src/parser.rs:634-645 | `parse` of `+CMTI: "<storage>",<index>\r` is the notice of the named storage and index with everything after the single carriage return as tail, or a protocol violation for an unknown storage |
| Replies.CallWithoutNumberReply | src/parser.rs:647-683 | `parse` of `+CLCC` without the number group is the call with number, type and name absent, or a protocol violation |
| Replies.CallWithNumberReply | src/parser.rs:647-683 | `parse` of `+CLCC` with the number group is the call with its number, type and name, or a protocol violation |
| Replies.SignalQualityExampleAt | src/parser.rs:545-556 | the `+CSQ` parser reads `+CSQ: 31,99\r\r` as -52 dBm with an unknown error rate |
| Replies.SignalQualityExample | src/parser.rs:545-556 | `parse` of `+CSQ: 31,99\r\r` followed by anything is that signal quality with the rest as tail |
| Replies.PhoneActivityExampleAt | src/parser.rs:534-543 | the `+CPAS` parser reads `+CPAS: 0\r\r` as ready |
| Replies.PhoneActivityExample | src/parser.rs:534-543 | `parse` of `+CPAS: 0\r\r` followed by anything is `Ready` with the rest as tail |
| Replies.BatteryChargeExampleAt | src/parser.rs:558-575 | the `+CBC` parser reads `+CBC: 0,85,4100\r\r` as not charging, level 85, 4100 mV |
| Replies.BatteryChargeExample | src/parser.rs:558-575 | `parse` of that line followed by anything is that battery charge with the rest as tail |
| Replies.OperatorFormatViolationExampleAt | src/parser.rs:493-503 | the `+COPS` parser meets format code 3 in `+COPS: 0,3,"X"\r\r` as a violation |
| Replies.OperatorFormatViolationExample | src/parser.rs:493-503 | `parse` of that line followed by anything is a protocol violation |
| Reader.Latin1 | src/sim800/mod.rs:78 | a byte becomes the character with the same code |
| Reader.Chars | src/sim800/mod.rs:78 | the characters of a run of bytes, one per byte, code for code |
| Reader.Next | src/sim800/mod.rs:54-79 | one byte in one round of the loop: a stopped reader changes nothing, at most one response is added at the end, the reader stops only on a line feed and then emits nothing, and a line feed that leaves it running empties `line` |
| Reader.Settle | src/sim800/mod.rs:58-73 | after a completed line is parsed, the reader stops exactly on a violation, exactly a success adds its response, `line` is emptied, and a malformed text is dropped |
| Reader.Feed | src/sim800/mod.rs:53-80 | a run of bytes adds at most one response per byte |
| Reader.RunFrom | src/sim800/mod.rs:53-80 | the loop over the reads ends with `Panic` exactly when the reader stopped; it is still waiting only when every read delivered a byte; responses are only added |
| Reader.ReadLines | src/sim800/mod.rs:53-80 | completed lines add at most one response each, only at the end, and leave `line` empty while the reader runs |
| Reader.Bytes | src/sim800/mod.rs:54 | the reads that deliver a run of bytes, one per byte |
| Reader.ResponseReader.constructor | src/sim800/mod.rs:49-51 | the reader starts with empty `line` and `text`, nothing emitted |
| Reader.ResponseReader.Step | src/sim800/mod.rs:56-78 | one round of the loop for a read byte updates the fields exactly as `Next` with the real `parse` |
| Reader.ResponseReader.CompleteLine | src/sim800/mod.rs:58-73 | a completed line that is not an echo is appended to `text` and given to the parser passed in (`Step` passes `Parse`), and the fields are then exactly as `Settle` says for its result |
| Reader.ResponseReader.Run | src/sim800/mod.rs:53-80 | the loop over the reads ends in the state and with the exit that `RunFrom` gives |
| Reader.OtherByteExtendsLine | src/sim800/mod.rs:78 | every byte other than a line feed, a carriage return included, is appended to `line` unchanged, and nothing else changes |
| Reader.LineFeedClearsLine | src/sim800/mod.rs:76 | after a line feed, `line` is empty |
| Reader.EchoLineDropped | src/sim800/mod.rs:57 | a completed line ending in `\r\r` leaves `text` unchanged and emits nothing |
| Reader.LineCompleted | src/sim800/mod.rs:58-73 | any other completed line on success emits exactly the response and leaves exactly the tail; when incomplete keeps old text plus line and emits nothing; when malformed empties `text` and emits nothing; and stops the reader exactly on a violation |
| Reader.FeedConcat | src/sim800/mod.rs:53-80 | handling a run of bytes is handling its parts one after the other |
| Reader.EmittedGrows | src/sim800/mod.rs:62 | responses are only ever added at the end, in the order their frames complete; a stopped reader changes nothing |
| Reader.LineHasNoLineFeed | src/sim800/mod.rs:56-78 | `line` never holds a line feed |
| Reader.FeedWithinLine | src/sim800/mod.rs:78 | bytes without a line feed only extend `line` with their characters |
| Reader.FeedLine | src/sim800/mod.rs:56-78 | a whole line fed from an empty `line` is handled as one completed line |
| Reader.ClosedStopsLoop | src/sim800/mod.rs:54-55 | a zero-byte read ends the loop in the state reached so far, and no read after it is looked at |
| Reader.Encoded | src/sim800/mod.rs:78 | partner of the byte-to-character conversion, used to state the inputs of the worked lemmas: the bytes of a Latin-1 text read back as that text |
| Reader.FeedText | src/sim800/mod.rs:56-78 | the bytes of a line of text plus a line feed are handled as that completed line |
| Reader.FeedLines | src/sim800/mod.rs:53-80 | feeding the bytes of whole lines is handling those lines one after another |
| Reader.ReplySteps | src/sim800/mod.rs:56-77 | the four lines of a registration reply, each handled on its own, for any parser that decides them as the modem's grammar does |
| Reader.ReplyLines | src/sim800/mod.rs:56-77 | for any such parser, the four-line reply emits `Empty`, the registration and `Ok` in that order and leaves nothing pending |
| Reader.ReadsRegistrationReply | src/sim800/mod.rs:56-77 | with the real `parse`, the reply `\r\n+CREG: 0,1\r\n\r\nOK\r\n` emits `Empty`, the registration and `Ok`: the status line is kept pending until the blank line completes its frame |
| Reader.RegistrationReplyBytes | src/sim800/mod.rs:53-80 | the same reply, fed as bytes from the port, ends in the same state |
| Reader.PendingFrameDropped | src/sim800/mod.rs:68-72 | a line that breaks a pending status line makes the text malformed: `text` is emptied and neither the status line nor the line that broke it is emitted |
| Reader.MalformedLineDropped | src/sim800/mod.rs:56-77 | for any parser, from an empty state a completed line that is malformed and does not end in `\r\r`, followed by `OK\r`, emits exactly `Ok` and leaves nothing pending |
| Reader.ResynchronisesAfterMalformed | src/sim800/mod.rs:53-80 | with the real `parse`, the bytes of such a line and of `OK\r\n` emit exactly `Ok`: the reader resynchronises on the next frame |
| Commands.Before | src/sim800/mod.rs:131-137 | the responses kept before the first terminal one: a prefix of the input, holding no `Ok` or `Error`, followed in the input by a terminal one when shorter |
| Responses.IsTerminal | src/sim800/mod.rs:101 | `Ok` and every error end a command's responses; a terminal response is never a status line nor `Empty` |
| Commands.Consumed | src/sim800/mod.rs:97-104 | the number taken from the channel: the kept ones plus the terminal one, or all when none is terminal |
| Commands.LastBefore | src/sim800/mod.rs:114-121 | the last response before the first terminal one, when there is one, is not terminal and came from the input |
| Commands.Modem.constructor | src/sim800/mod.rs:28-29 | the handle starts with nothing sent and the given responses queued |
| Commands.Modem.WriterEnded | src/sim800/mod.rs:36-44 | the writer thread ending on a failed write or flush closes it to commands and leaves the commands sent and the responses queued unchanged |
| Commands.Modem.Send | src/sim800/mod.rs:94-107 | after handing the command to the writer, `send` takes the responses through the first terminal one and leaves the later ones queued; when the writer has ended it fails and changes nothing |
| Commands.Modem.SendOne | src/sim800/mod.rs:109-124 | likewise, and returns the last non-terminal response taken, or nothing |
| Commands.Modem.SendList | src/sim800/mod.rs:126-141 | likewise, and returns every non-terminal response taken, in arrival order |
| Commands.LastOfList | src/sim800/mod.rs:117-136 | what `send_one` returns is the last element of what `send_list` returns over the same responses, or nothing when that is empty |
| Commands.ConsumedSplits | src/sim800/mod.rs:97-141 | the responses taken are the kept ones followed by the terminal one, when one came |
| Commands.DrainStopsAtTerminal | src/sim800/mod.rs:101 | draining non-terminal responses, a terminal one and any later ones keeps exactly the non-terminal ones and takes one more, leaving the later ones for the next command |

## Left out

- The threads, the `mpsc` channels, `join` and the port's `try_clone` (src/sim800/mod.rs:28-47, 83-92, 143-156) are concurrency and OS plumbing and are not modelled. The response channel is the sequence `emitted` on the reader side and `responses` on the command side. The command channel is the sequence `commands`.
- The writer thread's `write_all` and `flush` of `command\r\n` (src/sim800/mod.rs:32-46) are I/O only. A command handed over is appended to `commands`. The writer having ended, so that `command_sender.send` fails, is the flag `writerOpen`.
- Logging through `info!` and `warn!` is left out; it has no effect on the results.
- The text of the error in `ParseResult::Error(String)` is not modelled. `Malformed` carries no message.
- `response_sender.send(response)?` (src/sim800/mod.rs:62) is modelled as always succeeding. It would fail only after the command side has been dropped.
- The reader's panic on an unknown code is the flag `panicked` with the exit `Panic`. What happens to the thread afterwards, and in `join`, is not modelled.
- The serial port's `read` is an input sequence of read results. A failed read is `ReadFailed`. It ends `Run` with the exit `ReadError`, as the `?` at src/sim800/mod.rs:54 ends the reader thread. That covers the read time-out: src/main.rs:25 opens the port with a ten-second time-out, so ten seconds without a byte from the modem end the reader. Running out of the given sequence ends `Run` with `Waiting`. That only marks the end of the reads supplied; it is not a state of the source.
- Commands.Modem.Send: the channel is the finite sequence `responses` of what is already queued. When it runs out before a terminal response, the drain ends and returns what it took. The source does the same once the reader thread has ended, after a zero-byte read, a read error (the time-out included) or a panic. The channel is then closed, and the `for` loops at src/sim800/mod.rs:97, 114 and 131 end with `Ok`. While the reader is still running, the source instead blocks for the next response. The model does not tell the two cases apart. The same holds for SendOne and SendList.
- The nom and `time` crates are not part of this model; their observable behaviour is restated in `Streaming` and `Calendar`.
  - `u8`/`u16` overflow is an error.
  - The signed parsers read an optional sign, then digits bounded by the range.
  - A date is checked as a proleptic Gregorian date with years -9999..9999.
- `OffsetDateTime` becomes the record `UtcDateTime`. The zone offset field is parsed and dropped, as in the source, and the result is labelled UTC.
- Calendar.NewUtc: checks the month and the date together. It does not separate the source's three distinct error causes (`Month::try_from`, `Date::from_calendar_date`, `Time::from_hms`), because all three end in the same mismatch.
- Codes.OperatorSelectionModeOf: its contract states which codes have an entry. The entry each code maps to is given by the body, the source's `match` arm for arm.
- Codes.OperatorSelectionFormatOf: its contract states which codes have an entry. The entry each code maps to is given by the body, the source's `match` arm for arm.
- Codes.NetworkRegistrationModeOf: its contract states which codes have an entry. The entry each code maps to is given by the body, the source's `match` arm for arm.
- Codes.NetworkRegistrationStatusOf: its contract states which codes have an entry. The entry each code maps to is given by the body, the source's `match` arm for arm.
- Codes.PhoneActivityStatusOf: its contract states which codes have an entry. The entry each code maps to is given by the body, the source's `match` arm for arm.
- Codes.SignalQualityRssiOf: its contract gives the closed form for codes 2 to 30, the `Unknown` entry of 99 and the -115..-52 bound; only the entries for 0, 1 and 31 are left to the body, the source's `match` arm for arm.
- Codes.SignalQualityErrorRateOf: its contract states which codes have an entry. The entry each code maps to is given by the body, the source's `match` arm for arm.
- Codes.BatteryChargeStatusOf: its contract states which codes have an entry. The entry each code maps to is given by the body, the source's `match` arm for arm.
- Codes.SmsMessageStatusOf: its contract states which codes have an entry. The entry each code maps to is given by the body, the source's `match` arm for arm.
- Codes.SmsMessageStorageOf: its contract states which codes have an entry. The entry each code maps to is given by the body, the source's `match` arm for arm.
- Codes.CallDirectionOf: its contract states which codes have an entry. The entry each code maps to is given by the body, the source's `match` arm for arm.
- Codes.CallStateOf: its contract states which codes have an entry. The entry each code maps to is given by the body, the source's `match` arm for arm.
- Codes.CallModeOf: its contract states which codes have an entry. The entry each code maps to is given by the body, the source's `match` arm for arm.
- Codes.CallMultipartyOf: its contract states which codes have an entry. The entry each code maps to is given by the body, the source's `match` arm for arm.
- Reader.ReadsRegistrationReply: the concrete walk-through covers one reply. Other concrete frames are shown at the level of `parse` in `ParseFacts`.
- src/main.rs, src/arguments.rs and src/sim800/error.rs (the workflow, the command line and error wrappers) are not part of this model.
