/**
 * Base-10 integer parsing as Go's strconv.ParseInt and strconv.ParseUint do it
 * when the decoder calls them with base 10 and a bit size taken from the kind
 * tables: an optional sign (signed only), then digits only, then a range check
 * against the bit size, where bit size 0 means the 64-bit platform `int`.
 * The scan reports the first problem it meets from left to right: a non-digit
 * is a syntax error, a prefix that already exceeds the range is a range error.
 */
module Strconv {
  import opened Wrappers

  /** The cause strconv reports: ErrSyntax or ErrRange. */
  datatype NumError = ErrSyntax | ErrRange

  /** Width of Go's platform `int`, which bit size 0 stands for. */
  const IntSize: nat := 64

  /** The bit sizes the decoder's kind tables can produce. */
  predicate ValidBitSize(bitSize: nat) {
    bitSize == 0 || bitSize == 8 || bitSize == 16 || bitSize == 32 || bitSize == 64
  }

  function Bits(bitSize: nat): (n: nat)
    requires ValidBitSize(bitSize)
    ensures 8 <= n <= 64
  {
    if bitSize == 0 then IntSize else bitSize
  }

  function Pow2(n: nat): (r: nat)
    ensures r >= 1
  {
    if n == 0 then 1 else 2 * Pow2(n - 1)
  }

  /** Largest value an unsigned integer of this bit size holds. */
  function MaxUint(bitSize: nat): nat
    requires ValidBitSize(bitSize)
  {
    Pow2(Bits(bitSize)) - 1
  }

  /** Largest value a signed integer of this bit size holds. */
  function MaxInt(bitSize: nat): nat
    requires ValidBitSize(bitSize)
  {
    Pow2(Bits(bitSize) - 1) - 1
  }

  /** Smallest value a signed integer of this bit size holds. */
  function MinInt(bitSize: nat): int
    requires ValidBitSize(bitSize)
  {
    -(Pow2(Bits(bitSize) - 1) as int)
  }

  predicate IsDigit(c: char) {
    '0' <= c <= '9'
  }

  predicate AllDigits(s: string) {
    forall i :: 0 <= i < |s| ==> IsDigit(s[i])
  }

  function DigitValue(c: char): (d: nat)
    requires IsDigit(c)
    ensures d < 10
  {
    c as int - '0' as int
  }

  /** The number a string of decimal digits denotes, most significant digit first. */
  function Decimal(s: string): nat
    requires AllDigits(s)
  {
    if s == [] then 0 else 10 * Decimal(s[..|s| - 1]) + DigitValue(s[|s| - 1])
  }

  /**
   * ParseUint's scan loop from position i, with acc the value of s[..i]:
   * stops with ErrSyntax at the first non-digit and with ErrRange as soon
   * as the value read so far exceeds max.
   */
  function ScanDigits(s: string, i: nat, acc: nat, max: nat): (r: Result<nat, NumError>)
    requires i <= |s| && acc <= max
    ensures r.Success? ==> acc <= r.value <= max
    decreases |s| - i
  {
    if i == |s| then Success(acc)
    else if !IsDigit(s[i]) then Failure(ErrSyntax)
    else if 10 * acc + DigitValue(s[i]) > max then Failure(ErrRange)
    else ScanDigits(s, i + 1, 10 * acc + DigitValue(s[i]), max)
  }

  /** strconv.ParseUint(s, 10, bitSize). */
  function ParseUint(s: string, bitSize: nat): (r: Result<nat, NumError>)
    requires ValidBitSize(bitSize)
    ensures s == "" ==> r == Failure(ErrSyntax)
    ensures r.Success? ==> r.value <= MaxUint(bitSize)
  {
    if s == "" then Failure(ErrSyntax) else ScanDigits(s, 0, 0, MaxUint(bitSize))
  }

  /**
   * strconv.ParseInt(s, 10, bitSize): pick off one leading sign, parse the
   * rest with ParseUint, then check the magnitude against the cutoff
   * 2^(bits-1). A range error of ParseUint stays a range error, because its
   * magnitude is at least the cutoff.
   */
  function ParseInt(s: string, bitSize: nat): (r: Result<int, NumError>)
    requires ValidBitSize(bitSize)
    ensures s == "" || s == "+" || s == "-" ==> r == Failure(ErrSyntax)
    ensures r.Success? ==> MinInt(bitSize) <= r.value <= MaxInt(bitSize)
    ensures r.Success? ==> (r.value < 0 ==> s[0] == '-')
  {
    if s == "" then Failure(ErrSyntax)
    else
      var neg := s[0] == '-';
      match ParseUint(Unsigned(s), bitSize)
      case Failure(e) => Failure(e)
      case Success(u) =>
        var cutoff := Pow2(Bits(bitSize) - 1);
        if !neg && u >= cutoff then Failure(ErrRange)
        else if neg && u > cutoff then Failure(ErrRange)
        else Success(if neg then -(u as int) else u)
  }

  /** What ParseInt hands to ParseUint: the text without its one leading sign, if any. */
  function Unsigned(s: string): string
    requires s != ""
  {
    if s[0] == '+' || s[0] == '-' then s[1..] else s
  }

  /** Text ParseInt accepts apart from the range: one optional sign, then at least one digit, digits only. */
  predicate SignedDigits(s: string) {
    s != "" && Unsigned(s) != "" && AllDigits(Unsigned(s))
  }

  /** The integer a SignedDigits text denotes. */
  function SignedDecimal(s: string): int
    requires SignedDigits(s)
  {
    if s[0] == '-' then -(Decimal(Unsigned(s)) as int) else Decimal(Unsigned(s))
  }

  /** strconv.FormatUint(n, 10): the shortest decimal text of n. */
  function FormatUint(n: nat): (s: string)
    ensures |s| > 0 && AllDigits(s)
  {
    if n < 10 then ['0' + n as char]
    else FormatUint(n / 10) + ['0' + (n % 10) as char]
  }

  /** strconv.FormatInt(n, 10): a minus sign for negative n, then the magnitude. */
  function FormatInt(n: int): (s: string)
    ensures SignedDigits(s)
  {
    if n < 0 then "-" + FormatUint(-n) else FormatUint(n)
  }

  // ---------------------------------------------------------------------
  // Properties of the parsers
  // ---------------------------------------------------------------------

  lemma {:induction false} AllDigitsPrefix(s: string, k: nat)
    requires AllDigits(s) && k <= |s|
    ensures AllDigits(s[..k])
  {
    forall i | 0 <= i < k ensures IsDigit(s[..k][i]) {
      assert s[..k][i] == s[i];
    }
  }

  /** A prefix of a digit string never denotes more than the whole string. */
  lemma {:induction false} DecimalPrefixBound(s: string, k: nat)
    requires AllDigits(s) && k <= |s|
    ensures AllDigits(s[..k]) && Decimal(s[..k]) <= Decimal(s)
    decreases |s|
  {
    AllDigitsPrefix(s, k);
    if k < |s| {
      var t := s[..|s| - 1];
      AllDigitsPrefix(s, |s| - 1);
      assert t[..k] == s[..k];
      DecimalPrefixBound(t, k);
    } else {
      assert s[..k] == s;
    }
  }

  /** One more digit: the value of s[..i+1] from the value of s[..i]. */
  lemma DecimalSnoc(s: string, i: nat)
    requires i < |s| && AllDigits(s[..i + 1])
    ensures AllDigits(s[..i]) && IsDigit(s[i])
    ensures Decimal(s[..i + 1]) == 10 * Decimal(s[..i]) + DigitValue(s[i])
  {
    assert s[..i + 1][..i] == s[..i];
    assert s[..i + 1][i] == s[i];
    AllDigitsPrefix(s[..i + 1], i);
  }

  /** The scan from position i accepts exactly the digit strings within max, and returns their value. */
  lemma {:induction false} ScanDigitsCorrect(s: string, i: nat, max: nat)
    requires i <= |s| && AllDigits(s[..i]) && Decimal(s[..i]) <= max
    ensures ScanDigits(s, i, Decimal(s[..i]), max).Success? <==> AllDigits(s) && Decimal(s) <= max
    ensures ScanDigits(s, i, Decimal(s[..i]), max).Success? ==>
              ScanDigits(s, i, Decimal(s[..i]), max).value == Decimal(s)
    ensures AllDigits(s) && Decimal(s) > max ==> ScanDigits(s, i, Decimal(s[..i]), max) == Failure(ErrRange)
    decreases |s| - i
  {
    if i == |s| {
      assert s[..i] == s;
    } else if !IsDigit(s[i]) {
      assert !AllDigits(s);
    } else {
      var acc := Decimal(s[..i]);
      var t := s[..i + 1];
      assert AllDigits(t) by {
        forall j | 0 <= j < |t| ensures IsDigit(t[j]) {
          if j < i { assert t[j] == s[..i][j]; }
        }
      }
      DecimalSnoc(s, i);
      if 10 * acc + DigitValue(s[i]) > max {
        if AllDigits(s) { DecimalPrefixBound(s, i + 1); }
      } else {
        ScanDigitsCorrect(s, i + 1, max);
      }
    }
  }

  /**
   * ParseUint succeeds exactly on non-empty digit strings whose value fits
   * the bit size, and then returns that value; an all-digit string that does
   * not fit is a range error; the empty string is a syntax error.
   */
  lemma ParseUintCorrect(s: string, bitSize: nat)
    requires ValidBitSize(bitSize)
    ensures ParseUint(s, bitSize).Success? <==> s != "" && AllDigits(s) && Decimal(s) <= MaxUint(bitSize)
    ensures ParseUint(s, bitSize).Success? ==> ParseUint(s, bitSize).value == Decimal(s)
    ensures s != "" && AllDigits(s) && Decimal(s) > MaxUint(bitSize) ==> ParseUint(s, bitSize) == Failure(ErrRange)
    ensures s == "" ==> ParseUint(s, bitSize) == Failure(ErrSyntax)
  {
    if s != "" {
      assert s[..0] == "";
      ScanDigitsCorrect(s, 0, MaxUint(bitSize));
    }
  }

  /**
   * ParseInt succeeds exactly on an optionally signed digit string whose
   * value lies in [-2^(bits-1), 2^(bits-1) - 1], and returns that value.
   */
  lemma ParseIntCorrect(s: string, bitSize: nat)
    requires ValidBitSize(bitSize)
    ensures ParseInt(s, bitSize).Success? <==>
              SignedDigits(s) && MinInt(bitSize) <= SignedDecimal(s) <= MaxInt(bitSize)
    ensures ParseInt(s, bitSize).Success? ==> ParseInt(s, bitSize).value == SignedDecimal(s)
  {
    if s != "" {
      var body := Unsigned(s);
      var cutoff := Pow2(Bits(bitSize) - 1);
      assert MaxUint(bitSize) == 2 * cutoff - 1;
      assert MaxInt(bitSize) == cutoff - 1 && MinInt(bitSize) == -(cutoff as int);
      ParseUintCorrect(body, bitSize);
      if ParseUint(body, bitSize).Success? {
        assert SignedDigits(s);
      } else if body != "" && AllDigits(body) {
        assert Decimal(body) > MaxUint(bitSize);
      }
    }
  }

  lemma {:induction false} FormatUintValue(n: nat)
    ensures Decimal(FormatUint(n)) == n
  {
    var s := FormatUint(n);
    if n >= 10 {
      FormatUintValue(n / 10);
      assert s[..|s| - 1] == FormatUint(n / 10);
    }
  }

  /** ParseUint reads back what FormatUint writes, whenever the value fits the bit size. */
  lemma ParseUintFormatUint(n: nat, bitSize: nat)
    requires ValidBitSize(bitSize)
    ensures ParseUint(FormatUint(n), bitSize) == if n <= MaxUint(bitSize) then Success(n) else Failure(ErrRange)
  {
    FormatUintValue(n);
    ParseUintCorrect(FormatUint(n), bitSize);
  }

  /** ParseInt reads back what FormatInt writes exactly when the value lies in the signed range. */
  lemma ParseIntFormatInt(n: int, bitSize: nat)
    requires ValidBitSize(bitSize)
    ensures ParseInt(FormatInt(n), bitSize) == if MinInt(bitSize) <= n <= MaxInt(bitSize) then Success(n) else Failure(ErrRange)
  {
    var s := FormatInt(n);
    if n < 0 {
      assert Unsigned(s) == FormatUint(-n);
      FormatUintValue(-n);
    } else {
      assert Unsigned(s) == FormatUint(n);
      FormatUintValue(n);
    }
    assert SignedDecimal(s) == n;
    ParseIntCorrect(s, bitSize);
    if !(MinInt(bitSize) <= n <= MaxInt(bitSize)) {
      ParseUintCorrect(Unsigned(s), bitSize);
    }
  }
}
