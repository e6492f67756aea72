/** The number syntax accepted by `std::from_chars` for `long double` in its
    default (general) format, reduced to what the readers rely on.

    `from_chars` reads the longest prefix of its input that forms a number
    (`-`? digits [`.` digits] [(`e`|`E`) [`+`|`-`] digits], with at least one
    digit before the exponent) and reports an error only when no prefix
    matches. The reader only looks at the error code, so a token such as
    `1.5nm` reads as 1.5. The scanner below reads the token one character at
    a time, as a small automaton, and stops at the first character that
    cannot extend the number. */
module CharConv {
  import opened SpdErrors

  predicate IsDigit(c: char) {
    '0' <= c <= '9'
  }

  function DigitValue(c: char): (r: nat)
    requires IsDigit(c)
    ensures r <= 9
  {
    c as int - '0' as int
  }

  function Pow10(n: nat): (r: nat)
    ensures r >= 1
  {
    if n == 0 then 1 else 10 * Pow10(n - 1)
  }

  /** `m * 10^e`. */
  function Scale(m: real, e: int): real {
    if e >= 0 then m * Pow10(e) as real else m / Pow10(-e) as real
  }

  /** Where the scanner is in the number syntax. */
  datatype Phase =
    | Start       // nothing read yet
    | Sign        // after the leading `-`
    | Whole       // in the digits before the point
    | Fraction    // after the point
    | Mark        // after `e` or `E`
    | MarkSign    // after the sign of the exponent
    | Exponent    // in the digits of the exponent

  /** What has been read so far: the digits of the number as one integer
      (`mantissa`), how many of them follow the point, and the exponent. */
  datatype Scanner = Scanner(phase: Phase, negative: bool, mantissa: nat, digits: nat,
                             fractionDigits: nat, exponentNegative: bool, exponent: nat)

  const Initial := Scanner(Start, false, 0, 0, 0, false, 0)

  /** One character more: the next scanner, or `None` when `c` cannot
      extend the number read so far. */
  function Advance(st: Scanner, c: char): (r: Option<Scanner>)
    ensures r.Some? ==> r.value.digits == st.digits || (IsDigit(c) && r.value.digits == st.digits + 1)
  {
    match st.phase
    case Start =>
      if c == '-' then Some(st.(phase := Sign, negative := true))
      else if IsDigit(c) then Some(st.(phase := Whole, mantissa := 10 * st.mantissa + DigitValue(c), digits := st.digits + 1))
      else if c == '.' then Some(st.(phase := Fraction))
      else None
    case Sign =>
      if IsDigit(c) then Some(st.(phase := Whole, mantissa := 10 * st.mantissa + DigitValue(c), digits := st.digits + 1))
      else if c == '.' then Some(st.(phase := Fraction))
      else None
    case Whole =>
      if IsDigit(c) then Some(st.(mantissa := 10 * st.mantissa + DigitValue(c), digits := st.digits + 1))
      else if c == '.' then Some(st.(phase := Fraction))
      else if c == 'e' || c == 'E' then Some(st.(phase := Mark))
      else None
    case Fraction =>
      if IsDigit(c) then
        Some(st.(mantissa := 10 * st.mantissa + DigitValue(c), digits := st.digits + 1,
                 fractionDigits := st.fractionDigits + 1))
      else if (c == 'e' || c == 'E') && st.digits > 0 then Some(st.(phase := Mark))
      else None
    case Mark =>
      if c == '+' || c == '-' then Some(st.(phase := MarkSign, exponentNegative := c == '-'))
      else if IsDigit(c) then Some(st.(phase := Exponent, exponent := DigitValue(c)))
      else None
    case MarkSign =>
      if IsDigit(c) then Some(st.(phase := Exponent, exponent := DigitValue(c)))
      else None
    case Exponent =>
      if IsDigit(c) then Some(st.(exponent := 10 * st.exponent + DigitValue(c)))
      else None
  }

  /** Feeds `s[i..]` to the scanner until the end or the first character that
      does not fit. */
  function Run(s: string, i: nat, st: Scanner): Scanner
    requires i <= |s|
    decreases |s| - i
  {
    if i == |s| then st
    else match Advance(st, s[i])
      case None => st
      case Some(next) => Run(s, i + 1, next)
  }

  /** The number read, if at least one digit came before any exponent. An
      exponent counts only when it has a digit; otherwise `from_chars` stops
      before the `e`. */
  function Value(st: Scanner): Option<real> {
    if st.digits == 0 then None
    else
      var e: int := if st.phase != Exponent then 0
                    else if st.exponentNegative then -(st.exponent as int) else st.exponent;
      var magnitude := Scale(st.mantissa as real / Pow10(st.fractionDigits) as real, e);
      Some(if st.negative then -magnitude else magnitude)
  }

  /** `std::from_chars(token.begin(), token.end(), value)`: the value of the
      longest numeric prefix of the token, or an error when there is none. */
  function ParseNumber(token: string): (r: Option<real>)
    ensures r.Some? ==> exists k :: 0 <= k < |token| && IsDigit(token[k])
    ensures |token| > 0 && IsDigit(token[0]) ==> r.Some?
  {
    ScanFacts(token);
    Value(Run(token, 0, Initial))
  }

  predicate AllDigits(s: string) {
    forall k :: 0 <= k < |s| ==> IsDigit(s[k])
  }

  /** The value of a string of decimal digits, last digit least significant. */
  function DecimalValue(s: string): nat
    requires AllDigits(s)
  {
    if s == [] then 0 else 10 * DecimalValue(s[..|s| - 1]) + DigitValue(s[|s| - 1])
  }

  /** A scan of the whole token counts digits only when the token has one,
      and at least one when it starts with one. */
  lemma ScanFacts(token: string)
    ensures Run(token, 0, Initial).digits > 0 ==> exists k :: 0 <= k < |token| && IsDigit(token[k])
    ensures |token| > 0 && IsDigit(token[0]) ==> Run(token, 0, Initial).digits > 0
  {
    RunKeepsDigits(token, 0, Initial);
    if |token| > 0 && IsDigit(token[0]) {
      RunKeepsDigits(token, 1, Advance(Initial, token[0]).value);
    }
  }

  /** A token made only of digits parses to its decimal value. */
  lemma DigitsParse(token: string)
    requires |token| > 0 && AllDigits(token)
    ensures ParseNumber(token) == Some(DecimalValue(token) as real)
  {
    DigitsScan(token);
    WholeValue(DecimalValue(token), |token|);
  }

  /** A token of digits only is read to its end as one whole number. */
  lemma DigitsScan(token: string)
    requires |token| > 0 && AllDigits(token)
    ensures Run(token, 0, Initial) == Scanner(Whole, false, DecimalValue(token), |token|, 0, false, 0)
  {
    var c := token[0];
    assert token[..1] == [c];
    DecimalOfDigit(c);
    var st := Scanner(Whole, false, DigitValue(c), 1, 0, false, 0);
    assert Advance(Initial, c) == Some(st);
    assert Run(token, 0, Initial) == Run(token, 1, st);
    RunOverDigits(token, 1, st);
  }

  /** A whole number without sign, point or exponent is worth its digits. */
  lemma WholeValue(m: nat, n: nat)
    requires n > 0
    ensures Value(Scanner(Whole, false, m, n, 0, false, 0)) == Some(m as real)
  {
    assert Pow10(0) == 1;
  }

  /** A single digit is worth its own value. */
  lemma DecimalOfDigit(c: char)
    requires IsDigit(c)
    ensures AllDigits([c]) && DecimalValue([c]) == DigitValue(c)
  {
    assert [c][..0] == [];
  }

  /** Past a prefix of digits, the scanner holds the prefix's decimal value
      and reads every further digit into it. */
  lemma {:induction false} RunOverDigits(s: string, i: nat, st: Scanner)
    requires 0 < i <= |s| && AllDigits(s)
    requires st == Scanner(Whole, false, DecimalValue(s[..i]), i, 0, false, 0)
    ensures Run(s, i, st) == Scanner(Whole, false, DecimalValue(s), |s|, 0, false, 0)
    decreases |s| - i
  {
    if i < |s| {
      assert s[..i + 1][..i] == s[..i];
      RunOverDigits(s, i + 1, Advance(st, s[i]).value);
    } else {
      assert s[..i] == s;
    }
  }

  /** The scanner only ever adds digits: the count never goes down. */
  lemma {:induction false} RunKeepsDigits(s: string, i: nat, st: Scanner)
    requires i <= |s|
    ensures Run(s, i, st).digits >= st.digits
    ensures Run(s, i, st).digits > st.digits ==> exists k :: i <= k < |s| && IsDigit(s[k])
    decreases |s| - i
  {
    if i < |s| {
      match Advance(st, s[i])
      case None =>
      case Some(next) =>
        RunKeepsDigits(s, i + 1, next);
        if next.digits > st.digits {
          assert IsDigit(s[i]);
        }
    }
  }

  /** A token with no digit at all is unparsable, and so is one that starts
      with anything but a digit, `-` or `.` (in particular `+`, which
      `from_chars` does not accept). */
  lemma UnparsableTokens(token: string)
    ensures (forall k :: 0 <= k < |token| ==> !IsDigit(token[k])) ==> ParseNumber(token).None?
    ensures |token| > 0 && !IsDigit(token[0]) && token[0] != '-' && token[0] != '.' ==> ParseNumber(token).None?
  {
    RunKeepsDigits(token, 0, Initial);
  }
}
