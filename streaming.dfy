/**
  The streaming text primitives the grammar is built from, restated from
  the behaviour of nom's `streaming` parsers on `&str`.

  A parser runs on the whole buffer `s` from an absolute position `i` and
  reports one of four outcomes:
  - `Parsed(value, pos)`: it recognised `s[i..pos]`;
  - `Short`: the buffer ends before the parser could decide (nom's
    `Err::Incomplete`);
  - `Mismatch`: the text cannot match (nom's `Err::Error`);
  - `Violation`: a code table met a code it has no entry for, where the
    source reaches `unreachable!()` and the reading thread panics.
*/
module Streaming {

  import opened Base

  datatype Outcome<+T> = Parsed(value: T, pos: nat) | Short | Mismatch | Violation {

    predicate IsFailure() {
      !Parsed?
    }

    function PropagateFailure<U>(): Outcome<U>
      requires IsFailure()
    {
      match this
      case Short => Short
      case Mismatch => Mismatch
      case Violation => Violation
    }

    function Extract(): Outcome<T>
      requires Parsed?
    {
      this
    }
  }

  /** A parser that succeeds consumed at least one character and stayed in the buffer. */
  predicate Consumes<T>(r: Outcome<T>, s: string, i: nat) {
    r.Parsed? ==> i < r.pos <= |s|
  }

  /** A parser that succeeds stayed in the buffer (it may consume nothing). */
  predicate Within<T>(r: Outcome<T>, s: string, i: nat) {
    r.Parsed? ==> i <= r.pos <= |s|
  }

  /**
    The streaming contract relating a run on a prefix of the buffer to the
    run on the whole buffer: on less input the parser either asks for more
    or already gives the final answer.
  */
  predicate Stable<T(==)>(onPrefix: Outcome<T>, onWhole: Outcome<T>) {
    onPrefix.Short? || onPrefix == onWhole
  }

  predicate IsDigit(c: char) {
    '0' <= c <= '9'
  }

  function DigitValue(c: char): (d: nat)
    requires IsDigit(c)
    ensures d < 10
  {
    c as int - '0' as int
  }

  predicate IsHexDigit(c: char) {
    ('0' <= c <= '9') || ('a' <= c <= 'f') || ('A' <= c <= 'F')
  }

  function HexValue(c: char): (d: nat)
    requires IsHexDigit(c)
    ensures d < 16
  {
    if '0' <= c <= '9' then c as int - '0' as int
    else if 'a' <= c <= 'f' then c as int - 'a' as int + 10
    else c as int - 'A' as int + 10
  }

  predicate AllDigits(d: string) {
    forall k :: 0 <= k < |d| ==> IsDigit(d[k])
  }

  /** The value of a run of decimal digits, read left to right. */
  function Decimal(d: string): nat
    requires AllDigits(d)
  {
    if d == [] then 0 else Decimal(d[..|d| - 1]) * 10 + DigitValue(d[|d| - 1])
  }

  // ---------------------------------------------------------------------
  // tag, char

  /** Whether `s` agrees with `w` on the first `k` characters from `i`. */
  predicate Agrees(w: string, s: string, i: nat, k: nat)
    requires i + k <= |s| && k <= |w|
  {
    k == 0 || (Agrees(w, s, i, k - 1) && s[i + k - 1] == w[k - 1])
  }

  lemma {:induction false} AgreesMeaning(w: string, s: string, i: nat, k: nat)
    requires i + k <= |s| && k <= |w|
    ensures Agrees(w, s, i, k) <==> s[i..i + k] == w[..k]
  {
    if k > 0 {
      AgreesMeaning(w, s, i, k - 1);
      assert s[i..i + k] == s[i..i + k - 1] + [s[i + k - 1]];
      assert w[..k] == w[..k - 1] + [w[k - 1]];
    }
  }

  /**
    `tag(w)`: compares the buffer with `w` over the length they share; a
    difference there is a mismatch even when the buffer is short, and a
    buffer that ends while it still agrees with `w` is short.
  */
  function Tag(w: string, s: string, i: nat): (r: Outcome<()>)
    requires i <= |s|
    ensures !r.Violation?
    ensures r.Parsed? ==> r.pos == i + |w| <= |s|
  {
    var n := if |s| - i < |w| then |s| - i else |w|;
    if !Agrees(w, s, i, n) then Mismatch
    else if n < |w| then Short
    else Parsed((), i + |w|)
  }

  /** `tag` succeeds exactly on `w`, and is short exactly on a proper prefix of `w`. */
  lemma TagMeaning(w: string, s: string, i: nat)
    requires i <= |s|
    ensures Tag(w, s, i).Parsed? <==> i + |w| <= |s| && s[i..i + |w|] == w
    ensures Tag(w, s, i).Short? <==> |s| < i + |w| && s[i..] == w[..|s| - i]
  {
    var n := if |s| - i < |w| then |s| - i else |w|;
    AgreesMeaning(w, s, i, n);
    if |s| - i >= |w| {
      assert w[..|w|] == w;
    }
  }

  /** `tag` succeeds on a buffer that holds `w` at `i`. */
  lemma TagMatches(w: string, s: string, i: nat)
    requires i + |w| <= |s| && s[i..i + |w|] == w
    ensures Tag(w, s, i) == Parsed((), i + |w|)
  {
    TagMeaning(w, s, i);
  }

  /** `tag` mismatches as soon as one character in the buffer differs from `w`. */
  lemma TagMismatchAt(w: string, s: string, i: nat, j: nat)
    requires i + j < |s| && j < |w| && s[i + j] != w[j]
    ensures Tag(w, s, i) == Mismatch
  {
    TagMeaning(w, s, i);
    if i + |w| <= |s| {
      assert s[i..i + |w|][j] == s[i + j];
    } else {
      assert s[i..][j] == s[i + j];
    }
  }

  /** `char(c)` */
  function Char(c: char, s: string, i: nat): (r: Outcome<()>)
    requires i <= |s|
    ensures !r.Violation?
    ensures r.Short? <==> i == |s|
    ensures r.Parsed? <==> i < |s| && s[i] == c
    ensures r.Parsed? ==> r.pos == i + 1
  {
    if i == |s| then Short
    else if s[i] == c then Parsed((), i + 1)
    else Mismatch
  }

  // ---------------------------------------------------------------------
  // Decimal numbers

  /**
    The digit loop of nom's `u8`/`u16`: `acc` holds the value so far; a
    value above `max` is an error at once, a non-digit ends the number and
    the end of the buffer leaves it undecided.
  */
  function Digits(max: nat, acc: nat, s: string, i: nat): (r: Outcome<nat>)
    requires i <= |s| && acc <= max
    ensures !r.Violation?
    ensures r.Parsed? ==> i <= r.pos < |s| && !IsDigit(s[r.pos]) && r.value <= max
    ensures r.Parsed? ==> r.pos == i || IsDigit(s[r.pos - 1])
    decreases |s| - i
  {
    if i == |s| then Short
    else if !IsDigit(s[i]) then Parsed(acc, i)
    else if acc * 10 + DigitValue(s[i]) > max then Mismatch
    else Digits(max, acc * 10 + DigitValue(s[i]), s, i + 1)
  }

  /** nom's streaming unsigned integer parsers (`u8` with max 255, `u16` with max 65535). */
  function Unsigned(max: nat, s: string, i: nat): (r: Outcome<nat>)
    requires i <= |s|
    ensures !r.Violation?
    ensures r.Parsed? ==> i < r.pos < |s| && r.value <= max
    ensures r.Parsed? ==> IsDigit(s[r.pos - 1])
  {
    if i == |s| then Short
    else if !IsDigit(s[i]) then Mismatch
    else Digits(max, 0, s, i)
  }

  /** A number parsed by `Unsigned` is the decimal value of a non-empty digit run ended by a non-digit. */
  lemma UnsignedMeaning(max: nat, s: string, i: nat)
    requires i <= |s|
    ensures var r := Unsigned(max, s, i);
      && (r.Parsed? ==> !IsDigit(s[r.pos]) && AllDigits(s[i..r.pos]) && r.value == Decimal(s[i..r.pos]))
      && (r.Short? ==> AllDigits(s[i..]))
  {
    if i < |s| && IsDigit(s[i]) {
      DigitsValue(max, s, i, i);
    }
  }

  /** The digit loop computes the decimal value of the run it accepts. */
  lemma {:induction false} DigitsValue(max: nat, s: string, start: nat, i: nat)
    requires start <= i <= |s|
    requires AllDigits(s[start..i]) && Decimal(s[start..i]) <= max
    ensures var r := Digits(max, Decimal(s[start..i]), s, i);
      && (r.Parsed? ==> AllDigits(s[start..r.pos]) && r.value == Decimal(s[start..r.pos]))
      && (r.Short? ==> AllDigits(s[start..]))
    decreases |s| - i
  {
    if i < |s| && IsDigit(s[i]) {
      var d := s[start..i + 1];
      assert d[..|d| - 1] == s[start..i];
      assert AllDigits(d);
      if Decimal(d) <= max {
        DigitsValue(max, s, start, i + 1);
      }
    } else if i == |s| {
      assert s[start..] == s[start..i];
    }
  }

  /** A prefix of a digit run is a digit run of no greater value. */
  lemma {:induction false} DecimalPrefix(d: string, n: nat)
    requires AllDigits(d) && n <= |d|
    ensures AllDigits(d[..n]) && Decimal(d[..n]) <= Decimal(d)
    decreases |d|
  {
    if n < |d| {
      var shorter := d[..|d| - 1];
      assert shorter[..n] == d[..n];
      DecimalPrefix(shorter, n);
    } else {
      assert d[..n] == d;
    }
  }

  /** The digit loop, started at `m` inside the run `s[start..j]`, reads the whole run. */
  lemma {:induction false} DigitsExact(max: nat, s: string, start: nat, m: nat, j: nat)
    requires start <= m <= j < |s|
    requires AllDigits(s[start..j]) && !IsDigit(s[j]) && Decimal(s[start..j]) <= max
    ensures AllDigits(s[start..m]) && Decimal(s[start..m]) <= max
    ensures Digits(max, Decimal(s[start..m]), s, m) == Parsed(Decimal(s[start..j]), j)
    decreases j - m
  {
    var run := s[start..j];
    DecimalPrefix(run, m - start);
    assert run[..m - start] == s[start..m];
    if m < j {
      DecimalPrefix(run, m + 1 - start);
      assert run[..m + 1 - start] == s[start..m + 1];
      var d := s[start..m + 1];
      assert d[..|d| - 1] == s[start..m];
      assert IsDigit(run[m - start]);
      DigitsExact(max, s, start, m + 1, j);
    }
  }

  /** `u8`/`u16` on a non-empty digit run that fits: its value, and the position after the run. */
  lemma UnsignedExact(max: nat, s: string, i: nat, j: nat)
    requires i < j < |s|
    requires AllDigits(s[i..j]) && !IsDigit(s[j]) && Decimal(s[i..j]) <= max
    ensures Unsigned(max, s, i) == Parsed(Decimal(s[i..j]), j)
  {
    DigitsExact(max, s, i, i, j);
    assert s[i..i] == [];
    assert IsDigit(s[i..j][0]);
  }

  /** `u8`/`u16` on digits that run to the end of the buffer without passing the bound ask for more input. */
  lemma UnsignedShort(max: nat, s: string, i: nat)
    requires i <= |s| && AllDigits(s[i..]) && Decimal(s[i..]) <= max
    ensures Unsigned(max, s, i) == Short
  {
    if i < |s| {
      DigitsShort(max, s, i, i);
      assert s[i..i] == [];
      assert IsDigit(s[i..][0]);
    }
  }

  /** The digit loop, started at `m` inside a run that reaches the end of the buffer, stays undecided. */
  lemma {:induction false} DigitsShort(max: nat, s: string, start: nat, m: nat)
    requires start <= m <= |s|
    requires AllDigits(s[start..]) && Decimal(s[start..]) <= max
    ensures AllDigits(s[start..m]) && Decimal(s[start..m]) <= max
    ensures Digits(max, Decimal(s[start..m]), s, m) == Short
    decreases |s| - m
  {
    var run := s[start..];
    DecimalPrefix(run, m - start);
    assert run[..m - start] == s[start..m];
    if m < |s| {
      DecimalPrefix(run, m + 1 - start);
      assert run[..m + 1 - start] == s[start..m + 1];
      var d := s[start..m + 1];
      assert d[..|d| - 1] == s[start..m];
      assert IsDigit(run[m - start]);
      DigitsShort(max, s, start, m + 1);
    }
  }

  /** Where the digits of a signed number start: after its sign, when it has one. */
  function SignStart(s: string, i: nat): (start: nat)
    requires i < |s|
    ensures start == i || start == i + 1
  {
    if s[i] == '-' || s[i] == '+' then i + 1 else i
  }

  /** The largest magnitude a signed number may have: `-lo` after a minus, `hi` otherwise. */
  function SignBound(lo: int, hi: nat, s: string, i: nat): nat
    requires i < |s| && lo <= 0
  {
    if s[i] == '-' then -lo else hi
  }

  /**
    nom's streaming signed integer parsers (`i8`, `i16`): an optional
    sign, then digits whose magnitude may not exceed `-lo` after a minus
    and `hi` otherwise.
  */
  function Signed(lo: int, hi: nat, s: string, i: nat): (r: Outcome<int>)
    requires i <= |s| && lo <= 0
    ensures !r.Violation?
    ensures r.Parsed? ==> i < r.pos < |s| && lo <= r.value <= hi
  {
    if i == |s| then Short
    else
      var m :- Unsigned(SignBound(lo, hi, s, i), s, SignStart(s, i));
      var v: int := if s[i] == '-' then -(m.value as int) else m.value;
      Parsed(v, m.pos)
  }

  /**
    A number parsed by `Signed` is the decimal value of the digits after
    the optional sign, negated after a minus and within the bound for its
    sign; a short result means the buffer ended in the sign or the digits.
  */
  lemma SignedMeaning(lo: int, hi: nat, s: string, i: nat)
    requires i <= |s| && lo <= 0
    ensures var r := Signed(lo, hi, s, i);
      && (r.Parsed? ==>
            var start := SignStart(s, i);
            && start < r.pos && AllDigits(s[start..r.pos]) && !IsDigit(s[r.pos])
            && Decimal(s[start..r.pos]) <= SignBound(lo, hi, s, i)
            && r.value == if s[i] == '-' then -(Decimal(s[start..r.pos]) as int) else Decimal(s[start..r.pos]))
      && (r.Short? ==> i == |s| || AllDigits(s[SignStart(s, i)..]))
  {
    if i < |s| {
      UnsignedMeaning(SignBound(lo, hi, s, i), s, SignStart(s, i));
    }
  }

  /** `i8`/`i16` on an optional sign and a digit run that fits, ended inside the buffer: its signed value. */
  lemma SignedExact(lo: int, hi: nat, s: string, i: nat, j: nat)
    requires lo <= 0 && i < |s| && SignStart(s, i) < j < |s|
    requires AllDigits(s[SignStart(s, i)..j]) && !IsDigit(s[j]) && Decimal(s[SignStart(s, i)..j]) <= SignBound(lo, hi, s, i)
    ensures Signed(lo, hi, s, i) == Parsed(if s[i] == '-' then -(Decimal(s[SignStart(s, i)..j]) as int) else Decimal(s[SignStart(s, i)..j]), j)
  {
    UnsignedExact(SignBound(lo, hi, s, i), s, SignStart(s, i), j);
  }

  /** `i8`/`i16` on a sign and digits that run to the end of the buffer without passing the bound ask for more input. */
  lemma SignedShort(lo: int, hi: nat, s: string, i: nat)
    requires lo <= 0 && i < |s|
    requires AllDigits(s[SignStart(s, i)..]) && Decimal(s[SignStart(s, i)..]) <= SignBound(lo, hi, s, i)
    ensures Signed(lo, hi, s, i) == Short
  {
    UnsignedShort(SignBound(lo, hi, s, i), s, SignStart(s, i));
  }

  // ---------------------------------------------------------------------
  // Character runs

  /** The first position at or after `i` whose character does not satisfy `p`, or `|s|`. */
  function Span(p: char -> bool, s: string, i: nat): (j: nat)
    requires i <= |s|
    ensures i <= j <= |s|
    ensures forall k :: i <= k < j ==> p(s[k])
    ensures j < |s| ==> !p(s[j])
    decreases |s| - i
  {
    if i == |s| || !p(s[i]) then i else Span(p, s, i + 1)
  }

  /** `Span` stops at the first character that does not satisfy `p`. */
  lemma SpanExact(p: char -> bool, s: string, i: nat, j: nat)
    requires i <= j < |s| && !p(s[j])
    requires forall k :: i <= k < j ==> p(s[k])
    ensures Span(p, s, i) == j
  {
  }

  predicate NotQuote(c: char) {
    c != '"'
  }

  predicate NotCarriageReturn(c: char) {
    c != '\r'
  }

  /**
    `is_not(stop)`: a non-empty run of characters other than `stop`; the
    run must be ended by `stop` inside the buffer.
  */
  function IsNot(p: char -> bool, s: string, i: nat): (r: Outcome<string>)
    requires i <= |s|
    ensures !r.Violation?
    ensures r.Parsed? ==> i < r.pos < |s| && r.value == s[i..r.pos] && !p(s[r.pos])
    ensures r.Parsed? ==> forall k :: i <= k < r.pos ==> p(s[k])
  {
    var j := Span(p, s, i);
    if j == |s| then Short
    else if j == i then Mismatch
    else Parsed(s[i..j], j)
  }

  /** `hex_digit0`: a possibly empty run of hex digits, which must be ended inside the buffer. */
  function HexDigits(s: string, i: nat): (r: Outcome<string>)
    requires i <= |s|
    ensures !r.Violation?
    ensures r.Parsed? ==> i <= r.pos < |s| && r.value == s[i..r.pos] && !IsHexDigit(s[r.pos])
    ensures r.Parsed? ==> forall k :: i <= k < r.pos ==> IsHexDigit(s[k])
  {
    var j := Span(IsHexDigit, s, i);
    if j == |s| then Short else Parsed(s[i..j], j)
  }

  /** `is_not` on a non-empty run ended by a stop character inside the buffer returns that run. */
  lemma IsNotExact(p: char -> bool, s: string, i: nat, j: nat)
    requires i < j < |s| && !p(s[j])
    requires forall k :: i <= k < j ==> p(s[k])
    ensures IsNot(p, s, i) == Parsed(s[i..j], j)
  {
    SpanExact(p, s, i, j);
  }

  /** `hex_digit0` on a run of hex digits ended inside the buffer returns that run. */
  lemma HexDigitsExact(s: string, i: nat, j: nat)
    requires i <= j < |s| && !IsHexDigit(s[j])
    requires forall k :: i <= k < j ==> IsHexDigit(s[k])
    ensures HexDigits(s, i) == Parsed(s[i..j], j)
  {
    SpanExact(IsHexDigit, s, i, j);
  }

  /** `opt(p)`, given the outcome of `p` at `i`: a mismatch becomes an absent value. */
  function Optional<T>(r: Outcome<T>, i: nat): (o: Outcome<Option<T>>)
    ensures o.Parsed? <==> r.Parsed? || r.Mismatch?
    ensures o.Parsed? ==> if r.Parsed? then o.value == Some(r.value) && o.pos == r.pos else o.value == None && o.pos == i
    ensures o.Short? <==> r.Short?
  {
    match r
    case Parsed(v, p) => Parsed(Some(v), p)
    case Mismatch => Parsed(None, i)
    case Short => Short
    case Violation => Violation
  }


  // ---------------------------------------------------------------------
  // Stability of the primitives

  lemma TagStable(w: string, s: string, k: nat, i: nat)
    requires i <= k <= |s|
    ensures Stable(Tag(w, s[..k], i), Tag(w, s, i))
  {
    var p := s[..k];
    TagMeaning(w, p, i);
    TagMeaning(w, s, i);
    if i + |w| <= k {
      assert p[i..i + |w|] == s[i..i + |w|];
    } else if Tag(w, s, i).Short? {
      assert p[i..] == s[i..k] == s[i..][..k - i];
    } else if Tag(w, s, i).Parsed? {
      assert p[i..] == s[i..i + |w|][..k - i];
    }
  }

  lemma {:induction false} DigitsStable(max: nat, acc: nat, s: string, k: nat, i: nat)
    requires i <= k <= |s| && acc <= max
    ensures Stable(Digits(max, acc, s[..k], i), Digits(max, acc, s, i))
    decreases k - i
  {
    if i < k && IsDigit(s[i]) && acc * 10 + DigitValue(s[i]) <= max {
      DigitsStable(max, acc * 10 + DigitValue(s[i]), s, k, i + 1);
    }
  }

  lemma SpanStable(p: char -> bool, s: string, k: nat, i: nat)
    requires i <= k <= |s|
    ensures Span(p, s, i) < k ==> Span(p, s[..k], i) == Span(p, s, i)
    ensures Span(p, s, i) >= k ==> Span(p, s[..k], i) == k
    decreases k - i
  {
    if i < k && p(s[i]) {
      SpanStable(p, s, k, i + 1);
    }
  }

  lemma CharStable(c: char, s: string, k: nat, i: nat)
    requires i <= k <= |s|
    ensures Stable(Char(c, s[..k], i), Char(c, s, i))
  {
  }

  lemma UnsignedStable(max: nat, s: string, k: nat, i: nat)
    requires i <= k <= |s|
    ensures Stable(Unsigned(max, s[..k], i), Unsigned(max, s, i))
  {
    if i < k && IsDigit(s[i]) {
      DigitsStable(max, 0, s, k, i);
    }
  }

  lemma SignedStable(lo: int, hi: nat, s: string, k: nat, i: nat)
    requires i <= k <= |s| && lo <= 0
    ensures Stable(Signed(lo, hi, s[..k], i), Signed(lo, hi, s, i))
  {
    if i < k {
      UnsignedStable(SignBound(lo, hi, s, i), s, k, SignStart(s, i));
    }
  }

  lemma IsNotStable(p: char -> bool, s: string, k: nat, i: nat)
    requires i <= k <= |s|
    ensures Stable(IsNot(p, s[..k], i), IsNot(p, s, i))
  {
    SpanStable(p, s, k, i);
    var j := Span(p, s, i);
    if j < k {
      assert s[..k][i..j] == s[i..j];
    }
  }

  lemma HexDigitsStable(s: string, k: nat, i: nat)
    requires i <= k <= |s|
    ensures Stable(HexDigits(s[..k], i), HexDigits(s, i))
  {
    SpanStable(IsHexDigit, s, k, i);
    var j := Span(IsHexDigit, s, i);
    if j < k {
      assert s[..k][i..j] == s[i..j];
    }
  }

  lemma OptionalStable<T>(onPrefix: Outcome<T>, onWhole: Outcome<T>, i: nat)
    requires Stable(onPrefix, onWhole)
    ensures Stable(Optional(onPrefix, i), Optional(onWhole, i))
  {
  }
}
