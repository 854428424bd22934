/**
 * Go's `strconv.Atoi` on a 64-bit platform, the integer conversion the row
 * parser applies to the four score fields, and its inverse `Itoa`.
 */
module Strconv {
  import opened Results

  /** The range of Go's `int` (64 bits). */
  const MinInt: int := -0x8000_0000_0000_0000
  const MaxInt: int := 0x7FFF_FFFF_FFFF_FFFF
  /** The largest `uint64`; `ParseUint` stops with a range error past it. */
  const MaxUint64: int := 0xFFFF_FFFF_FFFF_FFFF

  predicate InIntRange(n: int) {
    MinInt <= n <= MaxInt
  }

  /** The two kinds of `*strconv.NumError`: `ErrSyntax` and `ErrRange`. */
  datatype NumErrorKind = ErrSyntax | ErrRange

  /** A conversion failure; `num` is the whole input, as Go reports it. */
  datatype NumError = NumError(num: string, err: NumErrorKind)

  predicate IsDigit(c: char) {
    '0' <= c <= '9'
  }

  predicate AllDigits(s: string) {
    forall i | 0 <= i < |s| :: IsDigit(s[i])
  }

  function DigitValue(c: char): nat
    requires IsDigit(c)
  {
    c as int - '0' as int
  }

  /**
   * The digit loop of `ParseUint`, from value `acc` on: a non-digit is a
   * syntax error, and a step past the `uint64` range is a range error at
   * once, whatever follows.
   */
  function ScanDigits(s: string, acc: nat): Result<nat, NumErrorKind>
  {
    if s == [] then Success(acc)
    else if !IsDigit(s[0]) then Failure(ErrSyntax)
    else if acc * 10 + DigitValue(s[0]) > MaxUint64 then Failure(ErrRange)
    else ScanDigits(s[1..], acc * 10 + DigitValue(s[0]))
  }

  /** `s` without its leading `+` or `-`, if it has one. */
  function Unsigned(s: string): string
  {
    if s != [] && (s[0] == '+' || s[0] == '-') then s[1..] else s
  }

  /**
   * `strconv.Atoi(s)`: base 10, an optional sign, no whitespace and no
   * underscores; the value must fit Go's `int`. Properties: AtoiSpec.
   */
  function Atoi(s: string): Result<int, NumError>
  {
    var body := Unsigned(s);
    if body == [] then Failure(NumError(s, ErrSyntax))
    else match ScanDigits(body, 0)
      case Failure(kind) => Failure(NumError(s, kind))
      case Success(u) =>
        var m: int := u;
        var v := if s[0] == '-' then -m else m;
        if InIntRange(v) then Success(v) else Failure(NumError(s, ErrRange))
  }

  /** The value of the digits `ds` read after a value `acc`. */
  function Accumulate(acc: nat, ds: string): nat
    requires AllDigits(ds)
    decreases |ds|
  {
    if ds == [] then acc else Accumulate(acc * 10 + DigitValue(ds[0]), ds[1..])
  }

  /** An optional sign followed by one or more digits, and nothing else. */
  predicate IsDecimal(s: string) {
    Unsigned(s) != [] && AllDigits(Unsigned(s))
  }

  /** The integer a well-formed decimal denotes, before any range check. */
  function DecimalValue(s: string): int
    requires IsDecimal(s)
  {
    var m: int := Accumulate(0, Unsigned(s));
    if s[0] == '-' then -m else m
  }

  lemma {:induction false} AccumulateGrows(acc: nat, ds: string)
    requires AllDigits(ds)
    ensures Accumulate(acc, ds) >= acc
    ensures ds != [] ==> Accumulate(acc, ds) >= acc * 10 + DigitValue(ds[0])
    decreases |ds|
  {
    if ds != [] {
      AccumulateGrows(acc * 10 + DigitValue(ds[0]), ds[1..]);
    }
  }

  /**
   * On digits the loop ends with their value unless that value exceeds the
   * `uint64` range, and on anything else it reports a syntax or range error.
   */
  lemma {:induction false} ScanDigitsSpec(s: string, acc: nat)
    requires acc <= MaxUint64
    ensures ScanDigits(s, acc).Success? ==> AllDigits(s) && ScanDigits(s, acc).value == Accumulate(acc, s)
    ensures AllDigits(s) && Accumulate(acc, s) <= MaxUint64 ==> ScanDigits(s, acc).Success?
    ensures AllDigits(s) && Accumulate(acc, s) > MaxUint64 ==> ScanDigits(s, acc) == Failure(ErrRange)
  {
    if s != [] && IsDigit(s[0]) {
      var next := acc * 10 + DigitValue(s[0]);
      assert AllDigits(s) ==> AllDigits(s[1..]);
      if AllDigits(s) {
        AccumulateGrows(next, s[1..]);
      }
      if next <= MaxUint64 {
        ScanDigitsSpec(s[1..], next);
        assert AllDigits(s[1..]) ==> AllDigits(s) by {
          if AllDigits(s[1..]) {
            forall i | 0 <= i < |s| ensures IsDigit(s[i]) {
              if i > 0 { assert s[i] == s[1..][i - 1]; }
            }
          }
        }
      }
    }
  }

  /**
   * Atoi accepts exactly an optional sign and one or more digits whose value
   * fits Go's `int`, and then returns that value; a failure names the input.
   */
  lemma AtoiSpec(s: string)
    ensures Atoi(s).Success? <==> IsDecimal(s) && InIntRange(DecimalValue(s))
    ensures Atoi(s).Success? ==> Atoi(s).value == DecimalValue(s)
    ensures Atoi(s).Failure? ==> Atoi(s).error.num == s
    ensures IsDecimal(s) && !InIntRange(DecimalValue(s)) ==> Atoi(s) == Failure(NumError(s, ErrRange))
  {
    var body := Unsigned(s);
    if body != [] {
      ScanDigitsSpec(body, 0);
      if IsDecimal(s) && Accumulate(0, body) > MaxUint64 {
        assert !InIntRange(DecimalValue(s));
      }
    }
  }

  /** The leading run of digits of `s`. */
  function DigitPrefix(s: string): (p: string)
    ensures AllDigits(p) && p <= s
    ensures |p| < |s| ==> !IsDigit(s[|p|])
  {
    if s == [] || !IsDigit(s[0]) then [] else [s[0]] + DigitPrefix(s[1..])
  }

  /**
   * The digit loop reports a range error exactly when the leading run of
   * digits, read after `acc`, exceeds the `uint64` range.
   */
  lemma {:induction false} ScanDigitsRange(s: string, acc: nat)
    requires acc <= MaxUint64
    ensures ScanDigits(s, acc) == Failure(ErrRange) <==> Accumulate(acc, DigitPrefix(s)) > MaxUint64
  {
    if s != [] && IsDigit(s[0]) {
      var next := acc * 10 + DigitValue(s[0]);
      var p := DigitPrefix(s);
      assert p[0] == s[0] && p[1..] == DigitPrefix(s[1..]);
      AccumulateGrows(next, p[1..]);
      if next <= MaxUint64 {
        ScanDigitsRange(s[1..], next);
      }
    }
  }

  /**
   * The kind of a conversion error: a range error exactly when the digits
   * after the sign form a decimal outside Go's `int`, or when their leading
   * run already exceeds the `uint64` range (whatever follows it); a syntax
   * error otherwise.
   */
  lemma AtoiErrorKind(s: string)
    requires Atoi(s).Failure?
    ensures Atoi(s).error.err == ErrRange <==>
      || Accumulate(0, DigitPrefix(Unsigned(s))) > MaxUint64
      || (IsDecimal(s) && !InIntRange(DecimalValue(s)))
  {
    var body := Unsigned(s);
    AtoiSpec(s);
    if body != [] {
      ScanDigitsSpec(body, 0);
      ScanDigitsRange(body, 0);
      if AllDigits(body) {
        assert DigitPrefix(body) == body;
      }
    }
  }

  function DigitChar(d: nat): (c: char)
    requires d < 10
    ensures IsDigit(c) && DigitValue(c) == d
  {
    ('0' as int + d) as char
  }

  /** The shortest decimal digits of `n`. */
  function Digits(n: nat): string
  {
    if n < 10 then [DigitChar(n)] else Digits(n / 10) + [DigitChar(n % 10)]
  }

  /** `strconv.Itoa(n)`: a `-` for negative values, then the digits. */
  function Itoa(n: int): string
  {
    if n < 0 then "-" + Digits(-n) else Digits(n)
  }

  lemma {:induction false} AccumulateAppend(acc: nat, ds: string, c: char)
    requires AllDigits(ds) && IsDigit(c)
    ensures AllDigits(ds + [c])
    ensures Accumulate(acc, ds + [c]) == Accumulate(acc, ds) * 10 + DigitValue(c)
    decreases |ds|
  {
    if ds != [] {
      assert (ds + [c])[1..] == ds[1..] + [c];
      AccumulateAppend(acc * 10 + DigitValue(ds[0]), ds[1..], c);
    }
  }

  lemma {:induction false} DigitsRoundTrip(n: nat)
    ensures Digits(n) != [] && AllDigits(Digits(n))
    ensures Accumulate(0, Digits(n)) == n
  {
    if n >= 10 {
      DigitsRoundTrip(n / 10);
      AccumulateAppend(0, Digits(n / 10), DigitChar(n % 10));
    }
  }

  /** Atoi inverts Itoa on every Go `int`. */
  lemma AtoiItoa(n: int)
    requires InIntRange(n)
    ensures Atoi(Itoa(n)) == Success(n)
  {
    var s := Itoa(n);
    DigitsRoundTrip(if n < 0 then -n else n);
    if n < 0 {
      assert Unsigned(s) == Digits(-n);
    } else {
      assert IsDigit(Digits(n)[0]);
      assert Unsigned(s) == Digits(n);
    }
    AtoiSpec(s);
  }
}
