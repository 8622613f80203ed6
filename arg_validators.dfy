/**
 * The value parsers that the command line attaches to its numeric options
 * (src/lib.rs): `only_digits` and the three validators `validate_arg_usize`,
 * `validate_arg_u8` and `validate_arg_u32`. A validator rejects an argument
 * that holds a non-digit character and otherwise hands it to Rust's
 * `str::parse` followed by `unwrap`, which panics when parsing fails.
 */
module ArgValidators {
  import opened Wrappers

  const U8_MAX: nat := 0xFF
  const U32_MAX: nat := 0xFFFF_FFFF
  /** `usize::MAX` on a 64-bit target. */
  const USIZE_MAX: nat := 0xFFFF_FFFF_FFFF_FFFF

  const DIGITS_MESSAGE: string := "The value must be made of digits"

  predicate IsAsciiDigit(c: char) {
    '0' <= c <= '9'
  }

  function DigitValue(c: char): (d: nat)
    requires IsAsciiDigit(c)
    ensures d < 10
  {
    c as int - '0' as int
  }

  function DigitChar(d: nat): (c: char)
    requires d < 10
    ensures IsAsciiDigit(c) && DigitValue(c) == d
  {
    ('0' as int + d) as char
  }

  predicate AllDigits(s: string) {
    forall i :: 0 <= i < |s| ==> IsAsciiDigit(s[i])
  }

  /**
   * `only_digits`: marks every character as digit or not and reports whether
   * a non-digit mark occurs. Despite its name it is true exactly when `s`
   * is NOT made of digits only; the empty string has no mark at all.
   */
  function OnlyDigits(s: string): (r: bool)
    ensures r <==> exists i :: 0 <= i < |s| && !IsAsciiDigit(s[i])
    ensures r <==> !AllDigits(s)
  {
    var marks := seq(|s|, i requires 0 <= i < |s| => IsAsciiDigit(s[i]));
    assert forall i :: 0 <= i < |s| ==> marks[i] == IsAsciiDigit(s[i]);
    false in marks
  }

  /** The number spelt by the digits `d` when they are appended, left to right, to `acc`. */
  function FoldDigits(acc: nat, d: string): (v: nat)
    requires AllDigits(d)
    decreases |d|
  {
    if d == [] then acc else FoldDigits(acc * 10 + DigitValue(d[0]), d[1..])
  }

  /** The decimal value of a digit string, leading zeros included. */
  function DecimalValue(s: string): (v: nat)
    requires AllDigits(s)
  {
    FoldDigits(0, s)
  }

  /** Rust's `n.to_string()` for an unsigned integer: its shortest decimal rendering. */
  function ToDecimal(n: nat): (s: string)
    ensures s != [] && AllDigits(s)
    ensures |s| > 1 ==> s[0] != '0'
  {
    if n < 10 then [DigitChar(n)] else ToDecimal(n / 10) + [DigitChar(n % 10)]
  }

  /** `IntErrorKind` of Rust's integer parser, as far as an unsigned target reaches it. */
  datatype IntErrorKind = Empty | InvalidDigit | PosOverflow

  /**
   * `str::parse::<uN>()` for an unsigned type whose largest value is `max`:
   * an empty string is `Empty`; a lone sign is `InvalidDigit`; one leading
   * `+` is skipped; then the digits are accumulated left to right.
   */
  function ParseUnsigned(s: string, max: nat): (r: Result<nat, IntErrorKind>)
    ensures r.Ok? ==> r.value <= max
    ensures r == Err(Empty) <==> s == []
  {
    if s == [] then Err(Empty)
    else if s == "+" || s == "-" then Err(InvalidDigit)
    else if s[0] == '+' then Accumulate(s[1..], 0, max)
    else Accumulate(s, 0, max)
  }

  /**
   * The digit loop of Rust's parser: for each character the multiplication
   * by ten is computed, the character is checked to be a digit, and then the
   * multiplication and the addition are checked for overflow, in that order.
   */
  function Accumulate(digits: string, acc: nat, max: nat): (r: Result<nat, IntErrorKind>)
    requires acc <= max
    ensures r.Ok? ==> acc <= r.value <= max
    ensures r != Err(Empty)
    ensures AllDigits(digits) ==> r != Err(InvalidDigit)
    decreases |digits|
  {
    if digits == [] then Ok(acc)
    else if !IsAsciiDigit(digits[0]) then Err(InvalidDigit)
    else if acc * 10 > max then Err(PosOverflow)
    else if acc * 10 + DigitValue(digits[0]) > max then Err(PosOverflow)
    else Accumulate(digits[1..], acc * 10 + DigitValue(digits[0]), max)
  }

  /** What a validator does with one argument: hands a value back, returns an error message, or panics in `unwrap`. */
  datatype ArgOutcome = Accepted(value: nat) | Rejected(message: string) | Panicked(cause: IntErrorKind)

  /**
   * The body shared by the three validators, for a target type whose largest
   * value is `max`.
   */
  function ValidateArg(v: string, max: nat): (r: ArgOutcome)
    ensures r.Rejected? <==> OnlyDigits(v)
    ensures r.Rejected? ==> r.message == DIGITS_MESSAGE
    ensures r.Accepted? ==> r.value <= max
  {
    if OnlyDigits(v) then Rejected(DIGITS_MESSAGE)
    else
      match ParseUnsigned(v, max)
      case Ok(n) => Accepted(n)
      case Err(e) => Panicked(e)
  }

  /** `validate_arg_usize`. */
  function ValidateArgUsize(v: string): (r: ArgOutcome)
    ensures r.Rejected? <==> OnlyDigits(v)
    ensures r.Accepted? ==> r.value <= USIZE_MAX
  {
    ValidateArg(v, USIZE_MAX)
  }

  /** `validate_arg_u8`. */
  function ValidateArgU8(v: string): (r: ArgOutcome)
    ensures r.Rejected? <==> OnlyDigits(v)
    ensures r.Accepted? ==> r.value <= U8_MAX
  {
    ValidateArg(v, U8_MAX)
  }

  /** `validate_arg_u32`. */
  function ValidateArgU32(v: string): (r: ArgOutcome)
    ensures r.Rejected? <==> OnlyDigits(v)
    ensures r.Accepted? ==> r.value <= U32_MAX
  {
    ValidateArg(v, U32_MAX)
  }

  // ---------------------------------------------------------------------
  // Decimal arithmetic behind the parser

  lemma {:induction false} FoldDigitsGrows(acc: nat, d: string)
    requires AllDigits(d)
    ensures FoldDigits(acc, d) >= acc
    ensures d != [] ==> FoldDigits(acc, d) >= acc * 10 + DigitValue(d[0])
    decreases |d|
  {
    if d != [] {
      FoldDigitsGrows(acc * 10 + DigitValue(d[0]), d[1..]);
    }
  }

  lemma {:induction false} FoldDigitsAppend(acc: nat, t: string, c: char)
    requires AllDigits(t) && IsAsciiDigit(c)
    ensures AllDigits(t + [c])
    ensures FoldDigits(acc, t + [c]) == FoldDigits(acc, t) * 10 + DigitValue(c)
    decreases |t|
  {
    if t == [] {
      assert t + [c] == [c];
      assert [c][1..] == [];
    } else {
      assert (t + [c])[1..] == t[1..] + [c];
      FoldDigitsAppend(acc * 10 + DigitValue(t[0]), t[1..], c);
    }
  }

  /** Reading back the decimal rendering of `n` gives `n`. */
  lemma {:induction false} DecimalRoundTrip(n: nat)
    ensures DecimalValue(ToDecimal(n)) == n
    decreases n
  {
    if n < 10 {
      var c := DigitChar(n);
      assert ToDecimal(n) == [c] && [c][1..] == [];
      assert FoldDigits(0, [c]) == FoldDigits(n, []);
    } else {
      DecimalRoundTrip(n / 10);
      FoldDigitsAppend(0, ToDecimal(n / 10), DigitChar(n % 10));
    }
  }

  /** Rust's digit loop computes the decimal value, or overflows exactly when that value exceeds `max`. */
  lemma {:induction false} AccumulateIsDecimal(digits: string, acc: nat, max: nat)
    requires AllDigits(digits) && acc <= max
    ensures Accumulate(digits, acc, max)
         == if FoldDigits(acc, digits) <= max then Ok(FoldDigits(acc, digits)) else Err(PosOverflow)
    decreases |digits|
  {
    if digits != [] {
      FoldDigitsGrows(acc, digits);
      var next := acc * 10 + DigitValue(digits[0]);
      if next <= max {
        AccumulateIsDecimal(digits[1..], next, max);
      }
    }
  }

  /** A non-empty digit string parses to its decimal value, or overflows exactly when that value exceeds `max`. */
  lemma ParseDigitString(s: string, max: nat)
    requires s != [] && AllDigits(s)
    ensures ParseUnsigned(s, max)
         == if DecimalValue(s) <= max then Ok(DecimalValue(s)) else Err(PosOverflow)
  {
    assert IsAsciiDigit(s[0]);
    AccumulateIsDecimal(s, 0, max);
  }

  // ---------------------------------------------------------------------
  // What the validators do with each kind of argument

  /**
   * The three cases of a validator: a non-digit character is rejected, the
   * empty string panics, and a non-empty digit string yields its decimal
   * value when it fits and panics with an overflow when it does not.
   */
  lemma ValidateArgCases(v: string, max: nat)
    ensures !AllDigits(v) ==> ValidateArg(v, max) == Rejected(DIGITS_MESSAGE)
    ensures v == [] ==> ValidateArg(v, max) == Panicked(Empty)
    ensures v != [] && AllDigits(v) ==>
              ValidateArg(v, max)
              == if DecimalValue(v) <= max then Accepted(DecimalValue(v)) else Panicked(PosOverflow)
  {
    if v != [] && AllDigits(v) {
      ParseDigitString(v, max);
    }
  }

  /** The three validators apply one and the same rejection rule. */
  lemma SharedRejectionRule(v: string)
    ensures ValidateArgUsize(v).Rejected? == ValidateArgU8(v).Rejected? == ValidateArgU32(v).Rejected?
    ensures ValidateArgU8(v).Rejected? <==> exists i :: 0 <= i < |v| && !IsAsciiDigit(v[i])
  {
  }

  /** Validating the decimal rendering of a value that fits gives that value back. */
  lemma RoundTrip(n: nat, max: nat)
    requires n <= max
    ensures ValidateArg(ToDecimal(n), max) == Accepted(n)
  {
    DecimalRoundTrip(n);
    ValidateArgCases(ToDecimal(n), max);
  }

  lemma U8RoundTrip(n: nat)
    requires n <= U8_MAX
    ensures ValidateArgU8(ToDecimal(n)) == Accepted(n)
  {
    RoundTrip(n, U8_MAX);
  }

  lemma U32RoundTrip(n: nat)
    requires n <= U32_MAX
    ensures ValidateArgU32(ToDecimal(n)) == Accepted(n)
  {
    RoundTrip(n, U32_MAX);
  }

  lemma UsizeRoundTrip(n: nat)
    requires n <= USIZE_MAX
    ensures ValidateArgUsize(ToDecimal(n)) == Accepted(n)
  {
    RoundTrip(n, USIZE_MAX);
  }

  function Zeros(k: nat): (z: string)
    ensures |z| == k && AllDigits(z)
  {
    seq(k, _ => '0')
  }

  lemma {:induction false} ZerosAddNothing(k: nat, s: string)
    requires AllDigits(s)
    ensures AllDigits(Zeros(k) + s)
    ensures DecimalValue(Zeros(k) + s) == DecimalValue(s)
    decreases k
  {
    if k > 0 {
      var v := Zeros(k) + s;
      assert v[0] == '0' && DigitValue('0') == 0;
      assert v[1..] == Zeros(k - 1) + s;
      ZerosAddNothing(k - 1, s);
      assert FoldDigits(0, v) == FoldDigits(0, v[1..]);
    } else {
      assert Zeros(k) + s == s;
    }
  }

  /** Leading zeros change nothing about how a non-empty argument is validated. */
  lemma LeadingZerosIgnored(k: nat, s: string, max: nat)
    requires s != []
    ensures ValidateArg(Zeros(k) + s, max) == ValidateArg(s, max)
  {
    var v := Zeros(k) + s;
    if AllDigits(s) {
      ZerosAddNothing(k, s);
      ValidateArgCases(v, max);
      ValidateArgCases(s, max);
    } else {
      var i :| 0 <= i < |s| && !IsAsciiDigit(s[i]);
      assert v[k + i] == s[i];
      ValidateArgCases(v, max);
      ValidateArgCases(s, max);
    }
  }

  lemma LeadingZerosExample()
    ensures ValidateArgU8("007") == Accepted(7)
  {
    assert "007" == Zeros(2) + "7";
    LeadingZerosIgnored(2, "7", U8_MAX);
    assert ToDecimal(7) == "7";
    U8RoundTrip(7);
  }

  /** The default `--length` of `generate` and `regenerate` is accepted as 32. */
  lemma DefaultLengthAccepted()
    ensures ValidateArgUsize("32") == Accepted(32)
  {
    assert ToDecimal(32) == "32";
    UsizeRoundTrip(32);
  }

  /** The empty argument passes the digit check and panics in `unwrap` instead of being rejected. */
  lemma EmptyArgumentPanics()
    ensures ValidateArgUsize("") == Panicked(Empty)
    ensures ValidateArgU8("") == Panicked(Empty)
    ensures ValidateArgU32("") == Panicked(Empty)
  {
  }

  /** A digit string beyond the target's range panics in `unwrap` instead of being rejected. */
  lemma OverflowingArgumentPanics(n: nat, max: nat)
    requires n > max
    ensures ValidateArg(ToDecimal(n), max) == Panicked(PosOverflow)
  {
    DecimalRoundTrip(n);
    ValidateArgCases(ToDecimal(n), max);
  }

  lemma U8OverflowExample()
    ensures ValidateArgU8("256") == Panicked(PosOverflow)
  {
    assert ToDecimal(256) == "256";
    OverflowingArgumentPanics(256, U8_MAX);
  }

  // ---------------------------------------------------------------------
  // A validator that never panics

  const RANGE_MESSAGE: string := "The value is out of range"

  /**
   * The validator with the `unwrap` replaced by an error return: the empty
   * string is rejected like any other non-digit argument, and a digit string
   * beyond the range is rejected with its own message.
   */
  function ValidateArgChecked(v: string, max: nat): (r: ArgOutcome)
    ensures !r.Panicked?
    ensures r.Accepted? <==> v != [] && AllDigits(v) && DecimalValue(v) <= max
    ensures r.Accepted? ==> r.value == DecimalValue(v)
  {
    ValidateArgCases(v, max);
    if OnlyDigits(v) || v == [] then Rejected(DIGITS_MESSAGE)
    else
      match ParseUnsigned(v, max)
      case Ok(n) => Accepted(n)
      case Err(_) => Rejected(RANGE_MESSAGE)
  }

  /** Where the validator as written returns, the checked one returns the same. */
  lemma CheckedAgreesWhereNoPanic(v: string, max: nat)
    requires !ValidateArg(v, max).Panicked?
    ensures ValidateArgChecked(v, max) == ValidateArg(v, max)
  {
    ValidateArgCases(v, max);
  }
}
