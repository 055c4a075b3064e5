/**
  The values the field parsers of src/parser.rs decode from the text the
  device writes: quoted texts, quoted and bare UCS2 hex, and timestamps,
  each read exactly from where it starts to where it ends.
*/
module FieldFacts {

  import opened Base
  import opened Streaming
  import opened Calendar
  import opened Parser

  // ---------------------------------------------------------------------
  // Numbers and terminators

  /** `s[i..j]` is a decimal number of at most `max`, ended by the non-digit at `j`. */
  predicate NumberAt(s: string, i: nat, j: nat, max: nat) {
    i < j < |s| && AllDigits(s[i..j]) && !IsDigit(s[j]) && Decimal(s[i..j]) <= max
  }

  /** The code written at `s[i..j]`, for a code table. */
  function CodeAt(s: string, i: nat, j: nat): uint8
    requires NumberAt(s, i, j, 0xFF)
  {
    Decimal(s[i..j]) as uint8
  }

  /** `s[j..j + 2]` is the status-line terminator `\r\r`. */
  predicate CrCrAt(s: string, j: nat) {
    j + 2 <= |s| && s[j] == '\r' && s[j + 1] == '\r'
  }

  /** The terminator is consumed exactly. */
  lemma CrCrExact(s: string, j: nat)
    requires CrCrAt(s, j)
    ensures CrCr(s, j) == Parsed((), j + 2)
  {
    assert s[j..j + 2] == "\r\r";
    TagMatches("\r\r", s, j);
  }

  // ---------------------------------------------------------------------
  // Quoted text and hex

  /** `s[i..j]` is a non-empty quoted text: a quote, characters other than a quote, a quote at `j - 1`. */
  predicate QuotedAt(s: string, i: nat, j: nat) {
    i + 2 < j <= |s| && s[i] == '"' && s[j - 1] == '"' && forall k :: i < k < j - 1 ==> s[k] != '"'
  }

  /** `parse_quoted_text` on a non-empty quoted text: the characters between the quotes. */
  lemma QuotedTextExact(s: string, i: nat, j: nat)
    requires QuotedAt(s, i, j)
    ensures QuotedText(s, i) == Parsed(s[i + 1..j - 1], j)
  {
    TagMismatchAt("\"\"", s, i, 1);
    IsNotExact(NotQuote, s, i + 1, j - 1);
  }

  /** `parse_quoted_text` on the empty quotes: the two quote characters themselves. */
  lemma QuotedTextEmpty(s: string, i: nat)
    requires i + 2 <= |s| && s[i] == '"' && s[i + 1] == '"'
    ensures QuotedText(s, i) == Parsed("\"\"", i + 2)
  {
    assert s[i..i + 2] == "\"\"";
    TagMatches("\"\"", s, i);
  }

  /** Every character of `t` is a hex digit. */
  predicate AllHex(t: string) {
    forall c | c in t :: IsHexDigit(c)
  }

  /** A run of hex digits, read position by position. */
  lemma AllHexAt(s: string, i: nat, j: nat)
    requires i <= j <= |s| && AllHex(s[i..j])
    ensures forall k :: i <= k < j ==> IsHexDigit(s[k])
  {
    forall k | i <= k < j
      ensures IsHexDigit(s[k])
    {
      assert s[k] == s[i..j][k - i];
    }
  }

  /** `s[i..j]` is quoted hex: a quote, hex digits, a quote at `j - 1`. */
  predicate QuotedHexAt(s: string, i: nat, j: nat) {
    i + 2 <= j <= |s| && s[i] == '"' && s[j - 1] == '"' && AllHex(s[i + 1..j - 1])
  }

  /** `parse_quoted_hex`: the UCS2 text of the digits between the quotes. */
  lemma QuotedHexExact(s: string, i: nat, j: nat)
    requires QuotedHexAt(s, i, j)
    ensures QuotedHex(s, i) == Parsed(Ucs2.Decode(s[i + 1..j - 1]), j)
  {
    AllHexAt(s, i + 1, j - 1);
    HexDigitsExact(s, i + 1, j - 1);
  }

  /** `parse_string_hex` on hex digits ended inside the buffer: their UCS2 text. */
  lemma StringHexExact(s: string, i: nat, j: nat)
    requires i <= j < |s| && !IsHexDigit(s[j]) && AllHex(s[i..j])
    ensures StringHex(s, i) == Parsed(Ucs2.Decode(s[i..j]), j)
  {
    AllHexAt(s, i, j);
    HexDigitsExact(s, i, j);
  }

  // ---------------------------------------------------------------------
  // Timestamps

  /** The decimal digit of a value below ten. */
  function Digit(n: nat): (c: char)
    requires n < 10
    ensures IsDigit(c) && DigitValue(c) == n
  {
    ('0' as int + n) as char
  }

  /** The fields of a timestamp as the device writes them: two-digit numbers and a signed two-digit zone. */
  datatype Stamp = Stamp(yy: nat, mo: nat, dd: nat, hh: nat, mi: nat, ss: nat, zoneNegative: bool, zone: nat)

  predicate Fits(st: Stamp) {
    st.yy < 100 && st.mo < 100 && st.dd < 100 && st.hh < 100 && st.mi < 100 && st.ss < 100 && st.zone < 100
  }

  /** The text of a stamp: `"YY/MM/DD,HH:MM:SS±ZZ"`. */
  function StampText(st: Stamp): (t: string)
    requires Fits(st)
    ensures |t| == 22 && t[0] == '"' && t[21] == '"'
  {
    ['"', Digit(st.yy / 10), Digit(st.yy % 10), '/', Digit(st.mo / 10), Digit(st.mo % 10), '/', Digit(st.dd / 10), Digit(st.dd % 10),
     ',', Digit(st.hh / 10), Digit(st.hh % 10), ':', Digit(st.mi / 10), Digit(st.mi % 10), ':', Digit(st.ss / 10), Digit(st.ss % 10),
     if st.zoneNegative then '-' else '+', Digit(st.zone / 10), Digit(st.zone % 10), '"']
  }

  /** The date and time a stamp stands for: the year counted from 2000, the zone dropped. */
  function StampTime(st: Stamp): UtcDateTime {
    UtcDateTime(2000 + st.yy, st.mo, st.dd, st.hh, st.mi, st.ss)
  }

  /** Whether a stamp names a real date and time of day. */
  predicate StampValid(st: Stamp) {
    ValidDate(2000 + st.yy, st.mo, st.dd) && ValidTime(st.hh, st.mi, st.ss)
  }

  /** Two digits followed by a non-digit are read as their value. */
  lemma TwoDigitField(max: nat, s: string, i: nat, n: nat)
    requires i + 2 < |s| && n < 100 && n <= max
    requires s[i] == Digit(n / 10) && s[i + 1] == Digit(n % 10) && !IsDigit(s[i + 2])
    ensures Unsigned(max, s, i) == Parsed(n, i + 2)
  {
    var d := s[i..i + 2];
    assert d[..1] == [s[i]] && d[..1][..0] == [];
    assert AllDigits(d);
    assert d[..|d| - 1] == d[..1];
    assert Decimal(d[..1]) == Decimal(d[..1][..0]) * 10 + DigitValue(d[0]) == n / 10;
    assert Decimal(d) == Decimal(d[..1]) * 10 + DigitValue(d[1]);
    assert Decimal(d) == (n / 10) * 10 + n % 10;
    UnsignedExact(max, s, i, i + 2);
  }

  /** The date part of a stamp at `p`: the quote, year, month and day with their separators. */
  lemma DateFieldsAt(s: string, p: nat, st: Stamp)
    requires Fits(st) && p + 22 <= |s| && s[p..p + 22] == StampText(st)
    ensures Char('"', s, p).Parsed? && Char('/', s, p + 3).Parsed? && Char('/', s, p + 6).Parsed? && Char(',', s, p + 9).Parsed?
    ensures Signed(-0x8000, 0x7FFF, s, p + 1) == Parsed(st.yy, p + 3)
    ensures Unsigned(0xFF, s, p + 4) == Parsed(st.mo, p + 6)
    ensures Unsigned(0xFF, s, p + 7) == Parsed(st.dd, p + 9)
  {
    var w := s[p..p + 22];
    assert s[p] == w[0] == '"' && s[p + 3] == w[3] == '/' && s[p + 6] == w[6] == '/' && s[p + 9] == w[9] == ',';
    assert s[p + 1] == w[1] && s[p + 2] == w[2] && s[p + 4] == w[4] && s[p + 5] == w[5] && s[p + 7] == w[7] && s[p + 8] == w[8];
    TwoDigitField(0x7FFF, s, p + 1, st.yy);
    TwoDigitField(0xFF, s, p + 4, st.mo);
    TwoDigitField(0xFF, s, p + 7, st.dd);
  }

  /** The time part of a stamp at `p`: hour, minute, second, the zone and the closing quote. */
  lemma TimeFieldsAt(s: string, p: nat, st: Stamp)
    requires Fits(st) && p + 22 <= |s| && s[p..p + 22] == StampText(st)
    ensures Char(':', s, p + 12).Parsed? && Char(':', s, p + 15).Parsed? && Char('"', s, p + 21).Parsed?
    ensures Unsigned(0xFF, s, p + 10) == Parsed(st.hh, p + 12)
    ensures Unsigned(0xFF, s, p + 13) == Parsed(st.mi, p + 15)
    ensures Unsigned(0xFF, s, p + 16) == Parsed(st.ss, p + 18)
    ensures Signed(-0x80, 0x7F, s, p + 18) == Parsed(if st.zoneNegative then -(st.zone as int) else st.zone, p + 21)
  {
    var w := s[p..p + 22];
    assert s[p + 12] == w[12] == ':' && s[p + 15] == w[15] == ':' && s[p + 18] == w[18] && s[p + 21] == w[21] == '"';
    assert s[p + 10] == w[10] && s[p + 11] == w[11] && s[p + 13] == w[13] && s[p + 14] == w[14] && s[p + 16] == w[16] && s[p + 17] == w[17];
    assert s[p + 19] == w[19] && s[p + 20] == w[20];
    TwoDigitField(0xFF, s, p + 10, st.hh);
    TwoDigitField(0xFF, s, p + 13, st.mi);
    TwoDigitField(0xFF, s, p + 16, st.ss);
    TwoDigitField(if st.zoneNegative then 0x80 else 0x7F, s, p + 19, st.zone);
  }

  /** The timestamp tuple on a stamp at `p` assembles its fields, not yet checked, with the year from 2000. */
  lemma TimestampFieldsOf(s: string, p: nat, st: Stamp)
    requires Fits(st) && p + 22 <= |s| && s[p..p + 22] == StampText(st)
    ensures TimestampFields(s, p) == Parsed(StampTime(st), p + 22)
  {
    DateFieldsAt(s, p, st);
    TimeFieldsAt(s, p, st);
  }

  /**
    `parse_timestamp` on a stamp at `p`: the year is 2000 plus the
    two-digit field, the zone has no effect on the result, and an invalid
    date or time is a mismatch.
  */
  lemma TimestampDecodes(s: string, p: nat, st: Stamp)
    requires Fits(st) && p + 22 <= |s| && s[p..p + 22] == StampText(st)
    ensures Timestamp(s, p) == if StampValid(st) then Parsed(StampTime(st), p + 22) else Mismatch
  {
    TimestampFieldsOf(s, p, st);
  }
}
