/** The part of JavaScript's `isNaN` the robot depends on. `isNaN(s)` on a
    string converts it with ToNumber, whose result is NaN exactly when the
    string, once its surrounding white space is trimmed, is neither empty nor
    a StringNumericLiteral of the ECMAScript grammar. Whether the result is
    NaN is therefore a matter of syntax; the numeric value itself is never
    used by the robot and is not modelled. */
module JsNumber {
  import opened JsString

  predicate IsDecimalDigit(c: char) { '0' <= c <= '9' }

  /** Every character of `s` is a decimal digit (the empty string included). */
  predicate AllDecimal(s: string) { forall i :: 0 <= i < |s| ==> IsDecimalDigit(s[i]) }

  /** DecimalDigits: one or more decimal digits. */
  predicate DecimalDigits(s: string) { s != [] && AllDecimal(s) }

  predicate IsSign(c: char) { c == '+' || c == '-' }
  predicate IsExponentMark(c: char) { c == 'e' || c == 'E' }

  /** A digit of the radix `base` (16, 8 or 2) of a NonDecimalIntegerLiteral. */
  predicate IsRadixDigit(c: char, base: nat) {
    if base == 16 then IsDecimalDigit(c) || 'a' <= c <= 'f' || 'A' <= c <= 'F'
    else if base == 8 then '0' <= c <= '7'
    else c == '0' || c == '1'
  }

  /** The radix named by the letter after a leading `0`, or 0 for none. */
  function RadixOf(c: char): nat {
    if c == 'x' || c == 'X' then 16
    else if c == 'o' || c == 'O' then 8
    else if c == 'b' || c == 'B' then 2
    else 0
  }

  const InfinityWord: string := "Infinity"

  /** States of a left-to-right scan of a StrNumericLiteral (the white-space
      free core of the ECMAScript StringNumericLiteral grammar): an optional
      sign, then `Infinity` or digits with at most one point and at least
      one digit, then an optional exponent `e`/`E` with an optional sign and
      digits; or, unsigned, `0x`/`0o`/`0b` (any case) and one or more digits
      of that radix. Numeric separators `_` are not part of this grammar. */
  datatype ScanState =
    | Start           // nothing read yet
    | Signed          // a sign
    | Zero            // an unsigned leading `0`: accepting
    | Whole           // digits, no point yet: accepting
    | Point           // a point with no digit before it
    | Fraction        // digits and a point, at least one digit: accepting
    | ExponentMark    // `e` or `E` after the mantissa
    | ExponentSign    // the exponent's sign
    | Exponent        // exponent digits: accepting
    | RadixMark(base: nat)  // `0x`, `0o` or `0b`
    | RadixDigits(base: nat) // radix digits: accepting
    | InInfinity(k: nat)     // the first `k` letters of `Infinity`: accepting at 8
    | Rejected        // no literal has what was read as a prefix

  /** One step of the scan. */
  function Step(q: ScanState, c: char): ScanState {
    match q
    case Start =>
      if IsSign(c) then Signed
      else if c == '0' then Zero
      else if IsDecimalDigit(c) then Whole
      else if c == '.' then Point
      else if c == 'I' then InInfinity(1)
      else Rejected
    case Signed =>
      if IsDecimalDigit(c) then Whole
      else if c == '.' then Point
      else if c == 'I' then InInfinity(1)
      else Rejected
    case Zero =>
      if RadixOf(c) != 0 then RadixMark(RadixOf(c))
      else if IsDecimalDigit(c) then Whole
      else if c == '.' then Fraction
      else if IsExponentMark(c) then ExponentMark
      else Rejected
    case Whole =>
      if IsDecimalDigit(c) then Whole
      else if c == '.' then Fraction
      else if IsExponentMark(c) then ExponentMark
      else Rejected
    case Point =>
      if IsDecimalDigit(c) then Fraction else Rejected
    case Fraction =>
      if IsDecimalDigit(c) then Fraction
      else if IsExponentMark(c) then ExponentMark
      else Rejected
    case ExponentMark =>
      if IsSign(c) then ExponentSign
      else if IsDecimalDigit(c) then Exponent
      else Rejected
    case ExponentSign =>
      if IsDecimalDigit(c) then Exponent else Rejected
    case Exponent =>
      if IsDecimalDigit(c) then Exponent else Rejected
    case RadixMark(b) =>
      if IsRadixDigit(c, b) then RadixDigits(b) else Rejected
    case RadixDigits(b) =>
      if IsRadixDigit(c, b) then RadixDigits(b) else Rejected
    case InInfinity(k) =>
      if k < |InfinityWord| && c == InfinityWord[k] then InInfinity(k + 1) else Rejected
    case Rejected => Rejected
  }

  /** The state reached by scanning all of `s` from `q`. */
  function Scan(q: ScanState, s: string): ScanState
    decreases |s|
  {
    if s == [] then q else Scan(Step(q, s[0]), s[1..])
  }

  predicate IsAccepting(q: ScanState) {
    q.Zero? || q.Whole? || q.Fraction? || q.Exponent? || q.RadixDigits? || q == InInfinity(8)
  }

  /** StrNumericLiteral: the scan of `s` ends in an accepting state. */
  predicate StrNumericLiteral(s: string) {
    IsAccepting(Scan(Start, s))
  }

  /** `isNaN(s)` for a string `s`. */
  predicate IsNaN(s: string) {
    var t := Trim(s);
    t != [] && !StrNumericLiteral(t)
  }

  /** Characters that can appear in a StrNumericLiteral: ASCII digits,
      letters, sign and point; never `/` and never white space. */
  predicate IsLiteralChar(c: char) {
    || IsDecimalDigit(c) || 'a' <= c <= 'f' || 'A' <= c <= 'F' || c == '.' || IsSign(c)
    || c == 'x' || c == 'X' || c == 'o' || c == 'O'
    || c == 'I' || c == 'n' || c == 'i' || c == 't' || c == 'y'
  }

  /** Once rejected, a scan stays rejected. */
  lemma {:induction false} RejectedIsFinal(s: string)
    ensures Scan(Rejected, s) == Rejected
  {
    if s != [] { RejectedIsFinal(s[1..]); }
  }

  /** A scan that is not rejected has read only literal characters. */
  lemma {:induction false} ScanReadsLiteralChars(q: ScanState, s: string)
    requires Scan(q, s) != Rejected
    ensures forall i :: 0 <= i < |s| ==> IsLiteralChar(s[i])
    decreases |s|
  {
    if s != [] {
      if Step(q, s[0]) == Rejected {
        RejectedIsFinal(s[1..]);
        assert false;
      }
      ScanReadsLiteralChars(Step(q, s[0]), s[1..]);
      forall i | 1 <= i < |s| ensures IsLiteralChar(s[i]) {
        assert s[i] == s[1..][i - 1];
      }
    }
  }

  /** Every character of a numeric literal is an ASCII literal character:
      never a `/` and never white space. */
  lemma NumericLiteralChars(s: string)
    requires StrNumericLiteral(s)
    ensures forall i :: 0 <= i < |s| ==> IsLiteralChar(s[i])
  {
    ScanReadsLiteralChars(Start, s);
  }

  /** Decimal digits after a whole-number prefix keep it a whole number. */
  lemma {:induction false} WholeReadsDigits(s: string)
    requires AllDecimal(s)
    ensures Scan(Whole, s) == Whole
  {
    if s != [] { WholeReadsDigits(s[1..]); }
  }

  /** Strings made only of decimal digits, such as the service references
      of the listing, are never NaN. */
  lemma DigitsAreNotNaN(s: string)
    requires DecimalDigits(s)
    ensures !IsNaN(s)
  {
    TrimOfTrimmed(s);
    if s[0] == '0' && |s| > 1 {
      WholeReadsDigits(s[2..]);
      assert s[1..][1..] == s[2..];
      assert Scan(Start, s) == Scan(Zero, s[1..]) == Scan(Whole, s[2..]);
    } else {
      WholeReadsDigits(s[1..]);
      assert Scan(Start, s) == Scan(Step(Start, s[0]), s[1..]);
    }
  }

  /** Exponent, hexadecimal, signed-fraction and `Infinity` forms pass the
      test as well as plain digits; `Infinity` is the one reference with no
      digit. */
  lemma NotNaNExamples()
    ensures !IsNaN("1e3") && !IsNaN("0x1F") && !IsNaN("-12.5") && !IsNaN("Infinity")
  {
    ExponentIsNumeric();
    HexIsNumeric();
    SignedFractionIsNumeric();
    InfinityIsNumeric();
  }

  /** A letter outside the literal forms, a slash, a lone point or a sign
      before a radix prefix makes the test fail. */
  lemma NaNExamples()
    ensures IsNaN("NaN") && IsNaN("12/34") && IsNaN(".") && IsNaN("-0x1F")
  {
    WordIsNaN();
    SlashIsNaN();
    LonePointIsNaN();
    SignedHexIsNaN();
  }

  // One example per lemma: each is a computation of the scan that the
  // verifier carries out on its own, but not several of them at once.

  lemma ExponentIsNumeric()
    ensures !IsNaN("1e3")
  {
  }

  lemma HexIsNumeric()
    ensures !IsNaN("0x1F")
  {
  }

  lemma SignedFractionIsNumeric()
    ensures !IsNaN("-12.5")
  {
  }

  lemma InfinityIsNumeric()
    ensures !IsNaN("Infinity")
  {
  }

  lemma WordIsNaN()
    ensures IsNaN("NaN")
  {
  }

  lemma SlashIsNaN()
    ensures IsNaN("12/34")
  {
  }

  lemma LonePointIsNaN()
    ensures IsNaN(".")
  {
  }

  lemma SignedHexIsNaN()
    ensures IsNaN("-0x1F")
  {
  }
}
