/**
 * Decimal text for `u64` values: Rust's `format!("{}", n)` and
 * `str::parse::<u64>()`, including the three ways parsing can fail.
 */
module Numbers {
  import opened Common

  /** The kinds of `ParseIntError` that parsing an unsigned integer can raise. */
  datatype IntErrorKind = Empty | InvalidDigit | PosOverflow

  /** How a `ParseIntError` of each kind displays itself. */
  function IntErrorMessage(kind: IntErrorKind): string {
    match kind
    case Empty => "cannot parse integer from empty string"
    case InvalidDigit => "invalid digit found in string"
    case PosOverflow => "number too large to fit in target type"
  }

  predicate IsDigit(c: char) {
    '0' <= c <= '9'
  }

  function DigitValue(c: char): nat
    requires IsDigit(c)
  {
    c as int - '0' as int
  }

  function DigitChar(d: nat): char
    requires d < 10
  {
    ('0' as int + d) as char
  }

  /** `format!("{}", n)`: the shortest decimal numeral for `n`. */
  function Decimal(n: nat): (s: string)
    ensures |s| > 0 && forall i :: 0 <= i < |s| ==> IsDigit(s[i])
    decreases n
  {
    if n < 10 then [DigitChar(n)] else Decimal(n / 10) + [DigitChar(n % 10)]
  }

  /**
   * The digit loop of `u64::from_str`: digits are consumed from the left into
   * `acc`, the first non-digit is an error, and so is a value that no longer
   * fits in 64 bits (whichever comes first).
   */
  function ParseDigits(digits: string, acc: uint64): (r: Result<uint64, IntErrorKind>)
    ensures r.Ok? ==> forall i :: 0 <= i < |digits| ==> IsDigit(digits[i])
    ensures r != Err(Empty)
    decreases |digits|
  {
    if |digits| == 0 then Ok(acc)
    else if !IsDigit(digits[0]) then Err(InvalidDigit)
    else
      var next := acc as int * 10 + DigitValue(digits[0]);
      if next >= Uint64Limit then Err(PosOverflow)
      else ParseDigits(digits[1..], next as uint64)
  }

  /**
   * `s.parse::<u64>()`: the empty string is `Empty`; a lone sign is an invalid
   * digit; one leading `+` is skipped; a `-` is an ordinary invalid digit for
   * an unsigned type.
   */
  function ParseUint64(s: string): (r: Result<uint64, IntErrorKind>)
    ensures r == Err(Empty) <==> |s| == 0
    ensures |s| > 0 && s[0] == '-' ==> r == Err(InvalidDigit)
    ensures r.Ok? ==>
      var digits := if s[0] == '+' then s[1..] else s;
      |digits| > 0 && forall i :: 0 <= i < |digits| ==> IsDigit(digits[i])
  {
    if |s| == 0 then Err(Empty)
    else if (s[0] == '+' || s[0] == '-') && |s| == 1 then Err(InvalidDigit)
    else if s[0] == '+' then ParseDigits(s[1..], 0)
    else ParseDigits(s, 0)
  }

  /** Parsing one more digit multiplies by ten and adds it. */
  lemma {:induction false} ParseDigitsSnoc(digits: string, c: char, acc: uint64, v: uint64)
    requires ParseDigits(digits, acc) == Ok(v)
    requires IsDigit(c) && v as int * 10 + DigitValue(c) < Uint64Limit
    ensures ParseDigits(digits + [c], acc) == Ok((v as int * 10 + DigitValue(c)) as uint64)
    decreases |digits|
  {
    if |digits| == 0 {
      assert digits + [c] == [c];
    } else {
      var next := (acc as int * 10 + DigitValue(digits[0])) as uint64;
      assert (digits + [c])[1..] == digits[1..] + [c];
      ParseDigitsSnoc(digits[1..], c, next, v);
    }
  }

  lemma {:induction false} ParseDigitsOfDecimal(n: uint64)
    ensures ParseDigits(Decimal(n as nat), 0) == Ok(n)
    decreases n
  {
    if n >= 10 {
      ParseDigitsOfDecimal(n / 10);
      ParseDigitsSnoc(Decimal((n / 10) as nat), DigitChar((n % 10) as nat), 0, n / 10);
    }
  }

  /** Every `u64` printed in decimal parses back to itself. */
  lemma DecimalRoundTrip(n: uint64)
    ensures ParseUint64(Decimal(n as nat)) == Ok(n)
  {
    ParseDigitsOfDecimal(n);
  }

  /** Distinct numbers print differently. */
  lemma DecimalInjective(a: uint64, b: uint64)
    requires Decimal(a as nat) == Decimal(b as nat)
    ensures a == b
  {
    DecimalRoundTrip(a);
    DecimalRoundTrip(b);
  }
}
