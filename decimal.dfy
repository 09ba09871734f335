/**
  Unsigned 64-bit integers and `u64::from_str`, Rust's decimal parser for
  them: one optional leading `+`, then at least one ASCII digit, read left
  to right with checked arithmetic so that a value above 2^64 - 1 is
  refused. `ToDecimal` is the shortest decimal spelling of a number, the
  inverse the parser is checked against.
 */
module Decimal {
  import opened Wrappers

  const U64_MAX: int := 0xFFFF_FFFF_FFFF_FFFF
  const TWO_TO_THE_64: int := 0x1_0000_0000_0000_0000

  type U64 = x: int | 0 <= x <= U64_MAX

  /** Reduction modulo 2^64: what u64 arithmetic does when it overflows in a release build. */
  function Wrap(x: int): (r: U64)
    ensures 0 <= x <= U64_MAX ==> r == x
    ensures U64_MAX < x <= 2 * U64_MAX + 1 ==> r == x - TWO_TO_THE_64
    ensures -TWO_TO_THE_64 <= x < 0 ==> r == x + TWO_TO_THE_64
  {
    x % TWO_TO_THE_64
  }

  /** The kinds of `ParseIntError` that parsing an unsigned integer can produce. */
  datatype IntErrorKind = Empty | InvalidDigit | PosOverflow

  /** How `ParseIntError` displays itself. */
  function Describe(kind: IntErrorKind): string
  {
    match kind
    case Empty => "cannot parse integer from empty string"
    case InvalidDigit => "invalid digit found in string"
    case PosOverflow => "number too large to fit in target type"
  }

  predicate IsDigit(c: char)
  {
    '0' <= c <= '9'
  }

  predicate AllDigits(ds: string)
  {
    forall i :: 0 <= i < |ds| ==> IsDigit(ds[i])
  }

  function DigitValue(c: char): nat
    requires IsDigit(c)
  {
    c as int - '0' as int
  }

  function Pow10(n: nat): (r: nat)
    ensures r >= 1
  {
    if n == 0 then 1 else 10 * Pow10(n - 1)
  }

  /** The number a string of digits denotes, most significant digit first. */
  function Value(ds: string): nat
    requires AllDigits(ds)
  {
    if |ds| == 0 then 0 else DigitValue(ds[0]) * Pow10(|ds| - 1) + Value(ds[1..])
  }

  /** The digits `from_str` reads: the input without one leading `+`. */
  function Digits(s: string): string
  {
    if |s| > 0 && s[0] == '+' then s[1..] else s
  }

  /**
    The digit loop of `from_str`: each character must be a digit, and
    `acc * 10 + digit` must stay within 64 bits.
   */
  function Accumulate(acc: U64, ds: string): (r: Result<U64, IntErrorKind>)
    ensures r.Err? ==> r.error == InvalidDigit || r.error == PosOverflow
    ensures r.Err? && AllDigits(ds) ==> r.error == PosOverflow
    ensures r.Ok? ==> AllDigits(ds) && acc <= r.value
    decreases |ds|
  {
    if |ds| == 0 then Ok(acc)
    else if !IsDigit(ds[0]) then Err(InvalidDigit)
    else
      var next := acc * 10 + DigitValue(ds[0]);
      if next > U64_MAX then Err(PosOverflow) else Accumulate(next, ds[1..])
  }

  /** `u64::from_str`. */
  function ParseU64(s: string): (r: Result<U64, IntErrorKind>)
    ensures |s| == 0 ==> r == Err(Empty)
    ensures r.Ok? <==> |Digits(s)| > 0 && AllDigits(Digits(s)) && Value(Digits(s)) <= U64_MAX
    ensures r.Ok? ==> r.value == Value(Digits(s))
  {
    if |s| == 0 then Err(Empty)
    else if |s| == 1 && (s[0] == '+' || s[0] == '-') then Err(InvalidDigit)
    else
      AccumulateValue(0, Digits(s));
      Accumulate(0, Digits(s))
  }

  lemma {:induction false} AccumulateValue(acc: U64, ds: string)
    decreases |ds|
    ensures Accumulate(acc, ds).Ok? <==> AllDigits(ds) && acc * Pow10(|ds|) + Value(ds) <= U64_MAX
    ensures Accumulate(acc, ds).Ok? ==> Accumulate(acc, ds).value == acc * Pow10(|ds|) + Value(ds)
  {
    if |ds| > 0 && IsDigit(ds[0]) {
      var rest := ds[1..];
      var d := DigitValue(ds[0]);
      var next := acc * 10 + d;
      var p := Pow10(|rest|);
      assert Pow10(|ds|) == 10 * p;
      assert AllDigits(ds) <==> AllDigits(rest);
      if AllDigits(ds) {
        assert Value(ds) == d * p + Value(rest);
        Regroup(acc, d, p);
        assert acc * Pow10(|ds|) + Value(ds) == next * p + Value(rest);
      }
      if next <= U64_MAX {
        AccumulateValue(next, rest);
      } else if AllDigits(ds) {
        MulAtLeast(next, p);
      }
    }
  }

  lemma Regroup(acc: int, d: int, p: int)
    ensures acc * (10 * p) + d * p == (acc * 10 + d) * p
  {
  }

  lemma MulAtLeast(a: nat, b: nat)
    requires b >= 1
    ensures a * b >= a
  {
  }

  /** The shortest decimal spelling of `n`. */
  function ToDecimal(n: nat): (ds: string)
    ensures |ds| >= 1 && AllDigits(ds)
  {
    if n < 10 then [('0' as int + n) as char]
    else ToDecimal(n / 10) + [('0' as int + n % 10) as char]
  }

  lemma {:induction false} ValueAppend(ds: string, c: char)
    requires AllDigits(ds) && IsDigit(c)
    ensures AllDigits(ds + [c])
    ensures Value(ds + [c]) == Value(ds) * 10 + DigitValue(c)
  {
    assert AllDigits(ds + [c]);
    if |ds| > 0 {
      var e := ds + [c];
      assert e[0] == ds[0] && e[1..] == ds[1..] + [c];
      ValueAppend(ds[1..], c);
      var d0, p, v1 := DigitValue(ds[0]), Pow10(|ds| - 1), Value(ds[1..]);
      assert Value(e) == d0 * Pow10(|ds|) + v1 * 10 + DigitValue(c);
      assert Pow10(|ds|) == 10 * p;
      assert d0 * (10 * p) == (d0 * p) * 10 by { MulAssoc(d0, p); }
      assert Value(ds) == d0 * p + v1;
    }
  }

  lemma MulAssoc(a: int, b: int)
    ensures a * (10 * b) == (a * b) * 10
  {
  }

  lemma {:induction false} ValueToDecimal(n: nat)
    ensures Value(ToDecimal(n)) == n
  {
    if n >= 10 {
      ValueToDecimal(n / 10);
      ValueAppend(ToDecimal(n / 10), ('0' as int + n % 10) as char);
    }
  }

  /** Every number in range is read back from its decimal spelling. */
  lemma ParseToDecimal(n: U64)
    ensures ParseU64(ToDecimal(n)) == Ok(n)
  {
    ValueToDecimal(n);
  }

  /** A leading `+` is accepted and changes nothing. */
  lemma ParsePlusToDecimal(n: U64)
    ensures ParseU64("+" + ToDecimal(n)) == Ok(n)
  {
    assert Digits("+" + ToDecimal(n)) == ToDecimal(n);
    ValueToDecimal(n);
  }

  /** One past the largest value is refused, however it is spelled. */
  lemma ParseRejectsOverflow()
    ensures ParseU64(ToDecimal(U64_MAX + 1)).Err?
  {
    ValueToDecimal(U64_MAX + 1);
  }

  /** A lone sign is not a number. */
  lemma ParseRejectsSignOnly()
    ensures ParseU64("+").Err? && ParseU64("-").Err?
  {
  }

  /** Decimal spellings carry none of the content-range punctuation. */
  lemma DigitsHaveNoPunctuation(ds: string)
    requires AllDigits(ds)
    ensures '/' !in ds && '-' !in ds && '*' !in ds && '+' !in ds
  {
  }
}
