// `BytesContentRange`: the value of an HTTP `Content-Range` header in
// bytes, as three optional unsigned 64-bit numbers (first byte, last byte,
// total size), its builders and accessors, and the parser for the header
// forms
//
//   bytes <start>-<end>/<size>
//   bytes <start>-<end>/*
//   bytes */<size>
//
// The parser checks the shape and the integers only: it does not check
// that start <= end or that end < size.
module ContentRange {
  import opened Wrappers
  import opened Text
  import opened Decimal

  /** `std::io::ErrorKind`, as far as the parser uses it. */
  datatype ErrorKind = InvalidInput

  datatype Error = Error(kind: ErrorKind, message: string)

  /** A half-open interval `start..end`, as Rust's `Range<u64>`. */
  datatype HalfOpen = HalfOpen(start: U64, end: U64)

  /** A closed interval `start..=end`, as Rust's `RangeInclusive<u64>`. */
  datatype Inclusive = Inclusive(start: U64, end: U64)

  /** `None` in any field means unknown. */
  datatype BytesContentRange = BytesContentRange(start: Option<U64>, end: Option<U64>, size: Option<U64>)
  {
    /** Sets the range, keeping the size. */
    function WithRange(first: U64, last: U64): (r: BytesContentRange)
      ensures r.start == Some(first) && r.end == Some(last) && r.size == size
      ensures r.Range().Some? && r.RangeInclusive() == Some(Inclusive(first, last))
    {
      this.(start := Some(first), end := Some(last))
    }

    /** Sets the total size, keeping the range. */
    function WithSize(total: U64): (r: BytesContentRange)
      ensures r.start == start && r.end == end && r.Size() == Some(total)
    {
      this.(size := Some(total))
    }

    /**
      The range as a half-open interval. Its end is `end + 1` in u64
      arithmetic, which wraps to 0 when `end` is 2^64 - 1.
     */
    function Range(): (r: Option<HalfOpen>)
      ensures r.Some? <==> start.Some? && end.Some?
      ensures r.Some? ==> r.value.start == start.value
      ensures r.Some? && end.value < U64_MAX ==> r.value.end == end.value + 1
      ensures r.Some? && end.value == U64_MAX ==> r.value.end == 0
    {
      if start.Some? && end.Some? then Some(HalfOpen(start.value, Wrap(end.value + 1))) else None
    }

    /** The range as a closed interval. */
    function RangeInclusive(): (r: Option<Inclusive>)
      ensures r.Some? <==> start.Some? && end.Some?
      ensures r.Some? ==> r.value == Inclusive(start.value, end.value)
    {
      if start.Some? && end.Some? then Some(Inclusive(start.value, end.value)) else None
    }

    /** The number of bytes in the range: `end - start + 1` in u64 arithmetic. */
    function Len(): (r: Option<U64>)
      ensures r.Some? <==> start.Some? && end.Some?
    {
      if start.Some? && end.Some? then Some(Wrap(Wrap(end.value - start.value) + 1)) else None
    }

    function Size(): (r: Option<U64>)
      ensures r.Some? <==> size.Some?
      ensures r.Some? ==> r.value == size.value
      ensures WellFormed(this) && r.None? ==> RangeInclusive().Some?
    {
      size
    }
  }

  /** `BytesContentRange::default()`: everything unknown; not a meaningful value by itself. */
  function Default(): (r: BytesContentRange)
    ensures r.Range().None? && r.RangeInclusive().None? && r.Len().None? && r.Size().None?
  {
    BytesContentRange(None, None, None)
  }

  /**
    The three states the header can express: the range known (with or
    without the size), or only the size known.
   */
  predicate WellFormed(r: BytesContentRange)
  {
    && (r.start.Some? <==> r.end.Some?)
    && (r.start.None? ==> r.size.Some?)
  }

  /** Builders touch disjoint fields, so their order does not matter. */
  lemma BuildersCommute(r: BytesContentRange, first: U64, last: U64, total: U64)
    ensures r.WithRange(first, last).WithSize(total) == r.WithSize(total).WithRange(first, last)
    ensures r.WithRange(first, last).WithSize(total).Len() == r.WithRange(first, last).Len()
    ensures r.WithRange(first, last).Size() == r.Size()
  {
  }

  /** Builders reached from the default always give a value the header can express. */
  lemma BuildersWellFormed(first: U64, last: U64, total: U64)
    ensures WellFormed(Default().WithRange(first, last))
    ensures WellFormed(Default().WithRange(first, last).WithSize(total))
    ensures WellFormed(Default().WithSize(total))
    ensures !WellFormed(Default())
  {
  }

  /**
    A known range with start <= end is non-empty: its length is
    end - start + 1, at least 1, the width of `Range()`, and the two
    intervals agree. The one exception is 0..=2^64-1, whose length does not
    fit in 64 bits.
   */
  lemma {:induction false} LenOfOrderedRange(r: BytesContentRange)
    requires r.start.Some? && r.end.Some? && r.start.value <= r.end.value
    requires r.end.value - r.start.value < U64_MAX
    ensures r.Len() == Some(r.end.value - r.start.value + 1)
    ensures r.Len().value >= 1
    ensures r.end.value < U64_MAX ==> r.Range().value.end - r.Range().value.start == r.Len().value
    ensures r.RangeInclusive().value.end - r.RangeInclusive().value.start + 1 == r.Len().value
  {
    var d := r.end.value - r.start.value;
    assert Wrap(d) == d;
    assert Wrap(d + 1) == d + 1;
  }

  /** The full range 0..=2^64-1 wraps: both `Len()` and the end of `Range()` become 0. */
  lemma FullRangeWraps()
    ensures Default().WithRange(0, U64_MAX).Len() == Some(0)
    ensures Default().WithRange(0, U64_MAX).Range() == Some(HalfOpen(0, 0))
  {
  }

  /** In every case `Len()` is end - start + 1 reduced modulo 2^64, as u64 arithmetic computes it. */
  lemma {:induction false} LenModular(r: BytesContentRange)
    requires r.start.Some? && r.end.Some?
    ensures r.Len() == Some(Wrap(r.end.value - r.start.value + 1))
  {
    var d := r.end.value - r.start.value;
    if d < 0 {
      assert Wrap(d) == d + TWO_TO_THE_64;
      if d == -1 {
        assert Wrap(d) + 1 == TWO_TO_THE_64;
      } else {
        assert Wrap(d) + 1 == d + 1 + TWO_TO_THE_64;
      }
    } else {
      assert Wrap(d) == d;
    }
  }

  // The parser accepts start > end, and then `Len()` wraps around: a range
  // that ends one byte before it starts has length 0, and `bytes 5-3/*`
  // has length 2^64 - 1.
  lemma {:induction false} LenOfReversedRange(r: BytesContentRange)
    requires r.start.Some? && r.end.Some? && r.start.value > r.end.value
    ensures r.start.value == r.end.value + 1 ==> r.Len() == Some(0)
    ensures r.start.value > r.end.value + 1 ==> r.Len() == Some(r.end.value - r.start.value + 1 + TWO_TO_THE_64)
  {
    LenModular(r);
  }

  function InvalidHeader(value: string): Error
  {
    Error(InvalidInput, "header content range is invalid: " + value)
  }

  function InvalidRange(value: string): Error
  {
    Error(InvalidInput, "header range is invalid: " + value)
  }

  function InvalidInteger(kind: IntErrorKind): Error
  {
    Error(InvalidInput, "header range must contain valid integer: " + Describe(kind))
  }

  /** `<&str>::parse::<u64>` with its error mapped to InvalidInput. */
  function ParseField(s: string): (r: Result<U64, Error>)
    ensures r.Ok? <==> ParseU64(s).Ok?
    ensures r.Ok? ==> r.value == ParseU64(s).value
    ensures r.Err? ==> r.error.kind == InvalidInput
  {
    match ParseU64(s)
    case Ok(n) => Ok(n)
    case Err(kind) => Err(InvalidInteger(kind))
  }

  /** `BytesContentRange::from_str`. */
  function Parse(value: string): (r: Result<BytesContentRange, Error>)
    ensures r.Err? ==> r.error.kind == InvalidInput
    ensures !HasPrefix(value, "bytes ") ==> r == Err(InvalidHeader(value))
    ensures r.Ok? ==> WellFormed(r.value)
  {
    match StripPrefix(value, "bytes ")
    case None => Err(InvalidHeader(value))
    case Some(s) =>
      match StripPrefix(s, "*/")
      case Some(size) => ParseSizeOnly(size)
      case None => ParseRangeAndSize(value, s)
  }

  // The size-only form, after its `*/` prefix.
  function ParseSizeOnly(size: string): (r: Result<BytesContentRange, Error>)
    ensures r.Ok? <==> ParseU64(size).Ok?
    ensures r.Ok? ==> r.value.RangeInclusive().None? && r.value.Size() == Some(ParseU64(size).value)
    ensures r.Err? ==> r.error == InvalidInteger(ParseU64(size).error)
  {
    match ParseField(size)
    case Err(e) => Err(e)
    case Ok(n) => Ok(Default().WithSize(n))
  }

  /** The `<start>-<end>/<size or *>` form; `value` is the whole header, for the message. */
  function ParseRangeAndSize(value: string, s: string): (r: Result<BytesContentRange, Error>)
    ensures r.Err? ==> r.error.kind == InvalidInput
    ensures |Split(s, '/')| != 2 ==> r == Err(InvalidRange(value))
    ensures r.Ok? ==> r.value.RangeInclusive().Some?
  {
    var parts := Split(s, '/');
    if |parts| != 2 then Err(InvalidRange(value))
    else
      var bounds := Split(parts[0], '-');
      if |bounds| != 2 then Err(InvalidRange(value))
      else ParseBounds(bounds[0], bounds[1], parts[1])
  }

  /** The three fields of the range form, parsed left to right. */
  function ParseBounds(first: string, last: string, size: string): (r: Result<BytesContentRange, Error>)
    ensures r.Err? ==> r.error.kind == InvalidInput
    ensures r.Ok? <==> ParseU64(first).Ok? && ParseU64(last).Ok? && (size == "*" || ParseU64(size).Ok?)
    ensures r.Ok? ==> r.value.RangeInclusive() == Some(Inclusive(ParseU64(first).value, ParseU64(last).value))
    ensures r.Ok? ==> (r.value.Size().Some? <==> size != "*")
  {
    match ParseField(first)
    case Err(e) => Err(e)
    case Ok(a) =>
      match ParseField(last)
      case Err(e) => Err(e)
      case Ok(b) =>
        var bcr := Default().WithRange(a, b);
        if size != "*" then
          match ParseField(size)
          case Err(e) => Err(e)
          case Ok(n) => Ok(bcr.WithSize(n))
        else Ok(bcr)
  }

  /**
    The header text for a well-formed value, written the way the grammar
    above spells it, with shortest decimals. It is the reference the parser
    is checked against.
   */
  function Format(r: BytesContentRange): string
    requires WellFormed(r)
  {
    "bytes " +
    if r.start.Some? then
      ToDecimal(r.start.value) + "-" + ToDecimal(r.end.value) + "/" +
      (if r.size.Some? then ToDecimal(r.size.value) else "*")
    else "*/" + ToDecimal(r.size.value)
  }

  /** Parsing the header text of any well-formed value gives that value back. */
  lemma {:induction false} ParseFormat(r: BytesContentRange)
    requires WellFormed(r)
    ensures Parse(Format(r)) == Ok(r)
  {
    var rest := Format(r)[6..];
    StripPrefixOfConcat("bytes ", rest);
    assert Format(r) == "bytes " + rest;
    if r.start.Some? {
      var a, b := ToDecimal(r.start.value), ToDecimal(r.end.value);
      var c := if r.size.Some? then ToDecimal(r.size.value) else "*";
      DigitsHaveNoPunctuation(a);
      DigitsHaveNoPunctuation(b);
      if r.size.Some? { DigitsHaveNoPunctuation(c); }
      assert rest == (a + "-" + b) + ['/'] + c;
      assert !HasPrefix(rest, "*/") by { assert rest[0] == a[0]; assert IsDigit(a[0]); }
      assert '/' !in a + "-" + b;
      SplitAtFirst(a + "-" + b, '/', c);
      SplitWithout(c, '/');
      assert a + "-" + b == a + ['-'] + b;
      SplitAtFirst(a, '-', b);
      SplitWithout(b, '-');
      ParseToDecimal(r.start.value);
      ParseToDecimal(r.end.value);
      if r.size.Some? {
        ParseToDecimal(r.size.value);
        assert c != "*" by { assert IsDigit(c[0]); }
      }
    } else {
      var c := ToDecimal(r.size.value);
      assert rest == "*/" + c;
      StripPrefixOfConcat("*/", c);
      ParseToDecimal(r.size.value);
    }
  }

  // `bytes */N` is the size-only form, and N must be a u64.
  lemma {:induction false} SizeOnlyForm(n: string)
    ensures ParseU64(n).Ok? ==> Parse("bytes */" + n) == Ok(Default().WithSize(ParseU64(n).value))
    ensures ParseU64(n).Err? ==> Parse("bytes */" + n) == Err(InvalidInteger(ParseU64(n).error))
  {
    assert "bytes */" + n == "bytes " + ("*/" + n);
    StripPrefixOfConcat("bytes ", "*/" + n);
    StripPrefixOfConcat("*/", n);
  }

  /** After the unit, text not in the size-only form goes to the range form. */
  lemma RangeBranch(rest: string)
    requires !HasPrefix(rest, "*/")
    ensures Parse("bytes " + rest) == ParseRangeAndSize("bytes " + rest, rest)
  {
    StripPrefixOfConcat("bytes ", rest);
  }

  /**
    Outside the size-only form the rest must hold exactly one `/`, and the
    part before it exactly one `-`; any other count is refused.
   */
  lemma {:induction false} ShapeRejected(rest: string)
    requires !HasPrefix(rest, "*/")
    requires Count(rest, '/') != 1 || Count(Split(rest, '/')[0], '-') != 1
    ensures Parse("bytes " + rest) == Err(InvalidRange("bytes " + rest))
  {
    RangeBranch(rest);
    SplitCount(rest, '/');
    SplitCount(Split(rest, '/')[0], '-');
  }

  /** How the range form splits when its fields are free of the separators. */
  lemma {:induction false} RangeFormSplits(a: string, b: string, n: string)
    requires '-' !in a && '-' !in b && '/' !in a && '/' !in b && '/' !in n
    ensures !HasPrefix(a + "-" + b + "/" + n, "*/")
    ensures Split(a + "-" + b + "/" + n, '/') == [a + "-" + b, n]
    ensures Split(a + "-" + b, '-') == [a, b]
  {
    var rest := a + "-" + b + "/" + n;
    if |a| >= 2 {
      assert rest[..2] == a[..2];
    } else if |a| == 1 {
      assert rest[1] == '-';
    } else {
      assert rest[0] == '-';
    }
    assert rest == (a + "-" + b) + ['/'] + n;
    assert '/' !in a + "-" + b;
    SplitAtFirst(a + "-" + b, '/', n);
    SplitWithout(n, '/');
    assert a + "-" + b == a + ['-'] + b;
    SplitAtFirst(a, '-', b);
    SplitWithout(b, '-');
  }

  /** `bytes a-b/N`, with a, b and N free of the separators, comes down to its three fields. */
  lemma {:induction false} RangeForm(a: string, b: string, n: string)
    requires '-' !in a && '-' !in b && '/' !in a && '/' !in b && '/' !in n
    ensures Parse("bytes " + a + "-" + b + "/" + n) == ParseBounds(a, b, n)
  {
    var rest := a + "-" + b + "/" + n;
    assert "bytes " + a + "-" + b + "/" + n == "bytes " + rest;
    RangeFormSplits(a, b, n);
    RangeBranch(rest);
  }

  // The fields of the range form: `a-b/*` is the range (a, b) with the size
  // unknown, `a-b/N` also has size N; the first field that is not a u64 is
  // the one reported.
  lemma ParseBoundsOutcome(a: string, b: string, n: string)
    ensures var p := ParseBounds(a, b, n);
      && (ParseU64(a).Err? ==> p == Err(InvalidInteger(ParseU64(a).error)))
      && (ParseU64(a).Ok? && ParseU64(b).Err? ==> p == Err(InvalidInteger(ParseU64(b).error)))
      && (ParseU64(a).Ok? && ParseU64(b).Ok? ==>
            var bcr := Default().WithRange(ParseU64(a).value, ParseU64(b).value);
            && (n == "*" ==> p == Ok(bcr))
            && (n != "*" && ParseU64(n).Ok? ==> p == Ok(bcr.WithSize(ParseU64(n).value)))
            && (n != "*" && ParseU64(n).Err? ==> p == Err(InvalidInteger(ParseU64(n).error))))
  {
  }

  lemma Read123()
    ensures ParseU64("123") == Ok(123)
  {
    assert ToDecimal(12) == "12";
    assert ToDecimal(123) == "123";
    ParseToDecimal(123);
  }

  lemma Read1024()
    ensures ParseU64("1024") == Ok(1024)
  {
    assert ToDecimal(10) == "10";
    assert ToDecimal(102) == "102";
    assert ToDecimal(1024) == "1024";
    ParseToDecimal(1024);
  }

  /** The three well-formed headers of the repository's tests. */
  lemma ExampleRangeUnknownSize()
    ensures Parse("bytes 123-123/*") == Ok(Default().WithRange(123, 123))
  {
    Read123();
    assert "bytes 123-123/*" == "bytes " + "123" + "-" + "123" + "/" + "*";
    assert "123"[..2] == "12";
    RangeForm("123", "123", "*");
    ParseBoundsOutcome("123", "123", "*");
  }

  lemma ExampleRangeKnownSize()
    ensures Parse("bytes 123-123/1024") == Ok(Default().WithRange(123, 123).WithSize(1024))
  {
    Read123();
    Read1024();
    assert "bytes 123-123/1024" == "bytes " + "123" + "-" + "123" + "/" + "1024";
    assert "123"[..2] == "12";
    assert "1024"[0] != '*';
    RangeForm("123", "123", "1024");
    ParseBoundsOutcome("123", "123", "1024");
  }

  lemma ExampleSizeOnly()
    ensures Parse("bytes */1024") == Ok(Default().WithSize(1024))
  {
    ParseFormat(Default().WithSize(1024));
    assert ToDecimal(102) == "102";
    assert ToDecimal(1024) == "1024";
  }

  /** A non-numeric bound is refused. */
  lemma ExampleNonNumericRejected()
    ensures Parse("bytes abc-123/*").Err?
  {
    assert "bytes abc-123/*" == "bytes " + "abc" + "-" + "123" + "/" + "*";
    assert "abc"[..2] == "ab";
    assert "abc"[0] == 'a';
    RangeForm("abc", "123", "*");
    assert ParseU64("abc").Err?;
  }

  /** A missing unit is refused. */
  lemma ExampleMissingUnitRejected()
    ensures Parse("123-123/*").Err?
  {
    assert "123-123/*"[..6][0] == '1';
  }

  /** A second `/` after the range form is refused, whatever follows it. */
  lemma {:induction false} ExtraSlashRejected(a: string, b: string, n: string, m: string)
    requires '/' !in a && '/' !in b && '/' !in n
    requires '-' !in a
    ensures Parse("bytes " + a + "-" + b + "/" + n + "/" + m).Err?
  {
    var rest := a + "-" + b + "/" + n + "/" + m;
    assert "bytes " + a + "-" + b + "/" + n + "/" + m == "bytes " + rest;
    if |a| >= 2 {
      assert rest[..2] == a[..2];
      assert a[1] in a;
    } else if |a| == 1 {
      assert rest[1] == '-';
    } else {
      assert rest[0] == '-';
    }
    RangeBranch(rest);
    assert rest == (a + "-" + b) + ['/'] + (n + ['/'] + m);
    assert '/' !in a + "-" + b;
    SplitAtFirst(a + "-" + b, '/', n + ['/'] + m);
    SplitAtFirst(n, '/', m);
    assert |Split(rest, '/')| > 2;
  }

  /** A second `/` is refused. */
  lemma ExampleExtraSlashRejected()
    ensures Parse("bytes 123-123/1024/5").Err?
  {
    assert "bytes 123-123/1024/5" == "bytes " + "123" + "-" + "123" + "/" + "1024" + "/" + "5";
    assert "123"[..2] == "12";
    ExtraSlashRejected("123", "123", "1024", "5");
  }
}
