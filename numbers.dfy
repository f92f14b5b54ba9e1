/**
 * Base-10 parsing of 64-bit integers, as Go's `strconv.ParseUint(s, 10, 64)`
 * and `strconv.ParseInt(s, 10, 64)` do it. The row mapper and the scalar
 * readers both hand column text to these two parsers.
 */
module Numbers {
  import opened Outcomes

  /** One byte of a Go string or `[]byte`. */
  type Byte = b: int | 0 <= b < 256
  type Bytes = seq<Byte>

  const MAX_UINT64: int := 0xFFFF_FFFF_FFFF_FFFF
  const MIN_INT64: int := -0x8000_0000_0000_0000
  const MAX_INT64: int := 0x7FFF_FFFF_FFFF_FFFF

  type UInt64 = n: int | 0 <= n <= MAX_UINT64
  type Int64 = n: int | MIN_INT64 <= n <= MAX_INT64

  /** The `Err` field of a `*strconv.NumError`. */
  datatype NumErrorKind = ErrSyntax | ErrRange

  const PLUS: Byte := '+' as int
  const MINUS: Byte := '-' as int

  predicate IsDigit(b: Byte) {
    '0' as int <= b <= '9' as int
  }

  function DigitValue(b: Byte): (d: nat)
    requires IsDigit(b)
    ensures d < 10
  {
    b - '0' as int
  }

  predicate AllDigits(s: Bytes) {
    forall i :: 0 <= i < |s| ==> IsDigit(s[i])
  }

  /** The number a string of decimal digits denotes, most significant digit first. */
  function DecimalValue(s: Bytes): nat
    requires AllDigits(s)
  {
    if s == [] then 0 else DecimalValue(s[..|s| - 1]) * 10 + DigitValue(s[|s| - 1])
  }

  /**
   * `strconv.ParseUint(s, 10, 64)`: no sign, no prefix, no underscores; the
   * empty string and any non-digit are a syntax error, a value above 2^64-1
   * a range error. Digits are consumed left to right and the first event
   * (a non-digit or an overflow) decides the error.
   */
  function ParseUint64(s: Bytes): Result<UInt64, NumErrorKind> {
    if s == [] then Failure(ErrSyntax) else AccumulateDigits(s, 0, 0)
  }

  /** The digit loop of `ParseUint`: `n` is the value of the digits before index `i`. */
  function AccumulateDigits(s: Bytes, i: nat, n: UInt64): Result<UInt64, NumErrorKind>
    requires i <= |s|
    decreases |s| - i
  {
    if i == |s| then Success(n)
    else if !IsDigit(s[i]) then Failure(ErrSyntax)
    else if n * 10 + DigitValue(s[i]) > MAX_UINT64 then Failure(ErrRange)
    else AccumulateDigits(s, i + 1, n * 10 + DigitValue(s[i]))
  }

  /** The text after an optional leading `+` or `-`, as `ParseInt` strips it. */
  function Unsigned(s: Bytes): Bytes
    requires s != []
  {
    if s[0] == PLUS || s[0] == MINUS then s[1..] else s
  }

  /**
   * `strconv.ParseInt(s, 10, 64)`: an optional sign, then what `ParseUint`
   * accepts; the magnitude may reach 2^63 only when negative. Every error of
   * the unsigned parse other than a range error becomes a syntax error.
   */
  function ParseInt64(s: Bytes): Result<Int64, NumErrorKind> {
    if s == [] then Failure(ErrSyntax)
    else
      var negative := s[0] == MINUS;
      match ParseUint64(Unsigned(s))
      case Failure(ErrRange) => Failure(ErrRange)
      case Failure(_) => Failure(ErrSyntax)
      case Success(magnitude) =>
        if !negative && magnitude >= 0x8000_0000_0000_0000 then Failure(ErrRange)
        else if negative && magnitude > 0x8000_0000_0000_0000 then Failure(ErrRange)
        else Success(if negative then -(magnitude as int) else magnitude as int)
  }

  /** The value a well-formed signed decimal text denotes. */
  function SignedValue(s: Bytes): int
    requires s != [] && AllDigits(Unsigned(s))
  {
    if s[0] == MINUS then -(DecimalValue(Unsigned(s)) as int) else DecimalValue(Unsigned(s))
  }

  /** Decimal text of a natural number without leading zeros, as `strconv.FormatUint` writes it. */
  function FormatUint(n: nat): Bytes
  {
    if n < 10 then ['0' as int + n] else FormatUint(n / 10) + ['0' as int + n % 10]
  }

  /** Decimal text of an integer, with a `-` when negative, as `strconv.FormatInt` writes it. */
  function FormatInt(n: int): Bytes
  {
    if n < 0 then [MINUS] + FormatUint(-n) else FormatUint(n)
  }

  // ---------------------------------------------------------------------------
  // Lemmas
  // ---------------------------------------------------------------------------

  lemma DecimalValueSnoc(s: Bytes, i: nat)
    requires i < |s| && AllDigits(s[..i + 1])
    ensures AllDigits(s[..i])
    ensures DecimalValue(s[..i + 1]) == DecimalValue(s[..i]) * 10 + DigitValue(s[i])
  {
    assert s[..i + 1][..i] == s[..i];
  }

  /** A longer run of digits never denotes a smaller number. */
  lemma {:induction false} DecimalValuePrefix(s: Bytes, k: nat)
    requires AllDigits(s) && k <= |s|
    ensures AllDigits(s[..k]) && DecimalValue(s[..k]) <= DecimalValue(s)
    decreases |s|
  {
    if k < |s| {
      var t := s[..|s| - 1];
      assert t[..k] == s[..k];
      DecimalValuePrefix(t, k);
    } else {
      assert s[..k] == s;
    }
  }

  lemma {:induction false} AccumulateDigitsMeaning(s: Bytes, i: nat, n: UInt64)
    requires i <= |s| && AllDigits(s[..i]) && n == DecimalValue(s[..i])
    ensures AccumulateDigits(s, i, n).Success? <==> AllDigits(s) && DecimalValue(s) <= MAX_UINT64
    ensures AccumulateDigits(s, i, n).Success? ==> AccumulateDigits(s, i, n).value == DecimalValue(s)
    decreases |s| - i
  {
    if i == |s| {
      assert s[..i] == s;
    } else if !IsDigit(s[i]) {
      assert !AllDigits(s) by { assert !IsDigit(s[i]); }
    } else {
      assert AllDigits(s[..i + 1]);
      DecimalValueSnoc(s, i);
      if n * 10 + DigitValue(s[i]) > MAX_UINT64 {
        if AllDigits(s) {
          DecimalValuePrefix(s, i + 1);
        }
      } else {
        AccumulateDigitsMeaning(s, i + 1, n * 10 + DigitValue(s[i]));
      }
    }
  }

  /** `ParseUint` accepts exactly the non-empty digit strings whose value fits in 64 bits, and returns that value. */
  lemma ParseUint64Meaning(s: Bytes)
    ensures ParseUint64(s).Success? <==> s != [] && AllDigits(s) && DecimalValue(s) <= MAX_UINT64
    ensures ParseUint64(s).Success? ==> ParseUint64(s).value == DecimalValue(s)
  {
    if s != [] {
      assert s[..0] == [];
      AccumulateDigitsMeaning(s, 0, 0);
    }
  }

  lemma {:induction false} AccumulateDigitsOverflow(s: Bytes, i: nat, n: UInt64)
    requires i < |s| && AllDigits(s) && n == DecimalValue(s[..i]) && DecimalValue(s) > MAX_UINT64
    ensures AccumulateDigits(s, i, n) == Failure(ErrRange)
    decreases |s| - i
  {
    DecimalValueSnoc(s, i);
    var next := n * 10 + DigitValue(s[i]);
    if next <= MAX_UINT64 {
      assert i + 1 < |s| by { assert s[..|s|] == s; }
      AccumulateDigitsOverflow(s, i + 1, next);
    }
  }

  /** Well-formed digits whose value does not fit in 64 bits are a range error, not a syntax error. */
  lemma ParseUint64Overflow(s: Bytes)
    requires s != [] && AllDigits(s) && DecimalValue(s) > MAX_UINT64
    ensures ParseUint64(s) == Failure(ErrRange)
  {
    assert s[..0] == [];
    AccumulateDigitsOverflow(s, 0, 0);
  }

  /** A text that is not a run of digits is rejected by `ParseUint`; the empty text is a syntax error. */
  lemma ParseUint64Malformed(s: Bytes)
    requires s == [] || !AllDigits(s)
    ensures ParseUint64(s).Failure?
    ensures s == [] ==> ParseUint64(s) == Failure(ErrSyntax)
  {
    ParseUint64Meaning(s);
  }

  lemma {:induction false} AccumulateDigitsSyntax(s: Bytes, i: nat, j: nat, n: UInt64)
    requires j <= i < |s| && AllDigits(s[..i]) && !IsDigit(s[i]) && DecimalValue(s[..i]) <= MAX_UINT64
    requires AllDigits(s[..j]) && n == DecimalValue(s[..j])
    ensures AccumulateDigits(s, j, n) == Failure(ErrSyntax)
    decreases i - j
  {
    if j < i {
      assert s[..i][..j + 1] == s[..j + 1];
      DecimalValuePrefix(s[..i], j + 1);
      DecimalValueSnoc(s, j);
      AccumulateDigitsSyntax(s, i, j + 1, n * 10 + DigitValue(s[j]));
    }
  }

  /**
   * A non-digit reached while the digits before it still fit in 64 bits is a
   * syntax error: the first event of the scan decides the error.
   */
  lemma ParseUint64Syntax(s: Bytes, i: nat)
    requires i < |s| && AllDigits(s[..i]) && !IsDigit(s[i]) && DecimalValue(s[..i]) <= MAX_UINT64
    ensures ParseUint64(s) == Failure(ErrSyntax)
  {
    assert s[..0] == [];
    AccumulateDigitsSyntax(s, i, 0, 0);
  }

  /**
   * `ParseInt` accepts exactly an optional sign followed by a non-empty digit
   * string whose signed value lies in [-2^63, 2^63-1], and returns that value.
   */
  lemma ParseInt64Meaning(s: Bytes)
    ensures ParseInt64(s).Success? <==>
              s != [] && Unsigned(s) != [] && AllDigits(Unsigned(s)) && MIN_INT64 <= SignedValue(s) <= MAX_INT64
    ensures ParseInt64(s).Success? ==> ParseInt64(s).value == SignedValue(s)
  {
    if s != [] {
      ParseUint64Meaning(Unsigned(s));
    }
  }

  /** Well-formed signed text whose value does not fit in 64 bits is a range error. */
  lemma ParseInt64Overflow(s: Bytes)
    requires s != [] && Unsigned(s) != [] && AllDigits(Unsigned(s))
    requires SignedValue(s) < MIN_INT64 || SignedValue(s) > MAX_INT64
    ensures ParseInt64(s) == Failure(ErrRange)
  {
    ParseUint64Meaning(Unsigned(s));
    if DecimalValue(Unsigned(s)) > MAX_UINT64 {
      ParseUint64Overflow(Unsigned(s));
    }
  }

  lemma {:induction false} FormatUintDigits(n: nat)
    ensures FormatUint(n) != [] && AllDigits(FormatUint(n)) && DecimalValue(FormatUint(n)) == n
  {
    if n >= 10 {
      FormatUintDigits(n / 10);
      var s := FormatUint(n);
      assert s[..|s| - 1] == FormatUint(n / 10);
    }
  }

  /** Parsing undoes formatting: `ParseUint(FormatUint(n)) == n` for every 64-bit `n`. */
  lemma ParseUint64RoundTrip(n: UInt64)
    ensures ParseUint64(FormatUint(n)) == Success(n)
  {
    FormatUintDigits(n);
    ParseUint64Meaning(FormatUint(n));
  }

  /** Parsing undoes formatting: `ParseInt(FormatInt(n)) == n` for every 64-bit `n`. */
  lemma ParseInt64RoundTrip(n: Int64)
    ensures ParseInt64(FormatInt(n)) == Success(n)
  {
    var s := FormatInt(n);
    if n < 0 {
      FormatUintDigits(-(n as int));
      assert Unsigned(s) == FormatUint(-(n as int));
    } else {
      FormatUintDigits(n);
      assert Unsigned(s) == FormatUint(n);
    }
    ParseInt64Meaning(s);
  }
}
