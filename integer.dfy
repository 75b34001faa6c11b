/**
 * The suffix-typed integers of src/types/integer.rs. In Line Protocol a signed
 * integer is written as a decimal followed by `i` and an unsigned one by `u`.
 * The decimal is parsed by the standard library (`str::parse`); this model
 * replaces that call by its grammar: an optional sign (`+` or `-` for i64,
 * only `+` for u64), at least one ASCII digit, and a range check.
 */
module Integers {
  import opened Wrappers
  import opened Errors

  const I64Min: int := -0x8000_0000_0000_0000
  const I64Max: int := 0x7FFF_FFFF_FFFF_FFFF
  const U64Max: int := 0xFFFF_FFFF_FFFF_FFFF

  type i64 = x: int | I64Min <= x <= I64Max
  type u64 = x: int | 0 <= x <= U64Max

  datatype InfluxInteger = InfluxInteger(value: i64)
  datatype InfluxUInteger = InfluxUInteger(value: u64)

  // Decimal notation

  predicate IsDigit(c: char) {
    '0' <= c <= '9'
  }

  predicate AllDigits(s: string) {
    forall i :: 0 <= i < |s| ==> IsDigit(s[i])
  }

  function DigitValue(c: char): nat
    requires IsDigit(c)
  {
    c as int - '0' as int
  }

  function DigitChar(d: nat): (c: char)
    requires d < 10
    ensures IsDigit(c) && DigitValue(c) == d
  {
    (d + '0' as int) as char
  }

  /** The number a string of digits denotes, most significant digit first. */
  function DigitsValue(s: string): nat
    requires AllDigits(s)
    decreases |s|
  {
    if s == [] then 0 else DigitsValue(s[..|s| - 1]) * 10 + DigitValue(s[|s| - 1])
  }

  /** Decimal digits of `n` without leading zeros: they denote `n` again. */
  function NatToDecimal(n: nat): (r: string)
    ensures r != [] && AllDigits(r)
    ensures DigitsValue(r) == n
    ensures r[0] == '0' ==> n == 0
    decreases n
  {
    if n < 10 then [DigitChar(n)]
    else
      var r := NatToDecimal(n / 10) + [DigitChar(n % 10)];
      assert r[..|r| - 1] == NatToDecimal(n / 10);
      r
  }

  /** Rust's `Display` for a signed integer: a `-` for negatives, never a `+`. */
  function IntToDecimal(x: int): (r: string)
    ensures r != [] && (r[0] == '-' <==> x < 0)
    ensures var digits := if x < 0 then r[1..] else r;
            digits != [] && AllDigits(digits) && DigitsValue(digits) == (if x < 0 then -x else x)
            && (digits[0] == '0' ==> x == 0)
  {
    if x < 0 then
      var r := ['-'] + NatToDecimal(-x);
      assert r[1..] == NatToDecimal(-x);
      r
    else
      var r := NatToDecimal(x);
      assert IsDigit(r[0]);
      r
  }

  /** The number `digits` denotes, if it is a non-empty string of digits. */
  function DigitsOf(digits: string): Option<nat> {
    if digits != [] && AllDigits(digits) then Some(DigitsValue(digits)) else None
  }

  /** `str::parse::<i64>`: an optional `+` or `-`, then at least one digit, within i64. */
  function ParseI64(s: string): (r: Option<i64>)
    ensures r.Some? ==> s != []
  {
    var negative := s != [] && s[0] == '-';
    var digits := if s != [] && (s[0] == '+' || s[0] == '-') then s[1..] else s;
    match DigitsOf(digits)
    case None => None
    case Some(n) =>
      var v: int := if negative then -(n as int) else n;
      if I64Min <= v <= I64Max then Some(v) else None
  }

  /** `str::parse::<u64>`: an optional `+`, then at least one digit, within u64. */
  function ParseU64(s: string): (r: Option<u64>)
    ensures r.Some? ==> s != [] && s[0] != '-'
  {
    var digits := if s != [] && s[0] == '+' then s[1..] else s;
    match DigitsOf(digits)
    case None => None
    case Some(n) => if n <= U64Max then Some(n) else None
  }

  // Splitting at the suffix

  /** Index of the first occurrence of `c` in `s`. */
  function FindFirst(s: string, c: char): (r: Option<nat>)
    ensures r.None? <==> c !in s
    ensures r.Some? ==> r.value < |s| && s[r.value] == c
    ensures r.Some? ==> forall j :: 0 <= j < r.value ==> s[j] != c
    decreases |s|
  {
    if s == [] then None
    else if s[0] == c then Some(0)
    else
      match FindFirst(s[1..], c)
      case None =>
        assert forall j :: 1 <= j < |s| ==> s[j] == s[1..][j - 1];
        None
      case Some(k) => Some(k + 1)
  }

  /** `split_once`: the text before and after the first occurrence of `c`. */
  function SplitOnce(s: string, c: char): (r: Option<(string, string)>)
    ensures r.None? <==> c !in s
    ensures r.Some? ==> r.value.0 + [c] + r.value.1 == s && c !in r.value.0
  {
    match FindFirst(s, c)
    case None => None
    case Some(k) =>
      assert s[..k] + [c] + s[k + 1..] == s;
      Some((s[..k], s[k + 1..]))
  }

  /** A decimal with no `c` in it, followed by `c`, splits at that last character. */
  lemma SplitOnceAtEnd(d: string, c: char)
    requires c !in d
    ensures SplitOnce(d + [c], c) == Some((d, []))
  {
    var s := d + [c];
    assert forall j :: 0 <= j < |d| ==> s[j] == d[j];
    assert s[..|d|] == d;
  }

  // Parsing and formatting

  /** `InfluxInteger::from_str`: split at the first `i`, require nothing after it, parse the rest. */
  function ParseInteger(s: string): (r: Result<InfluxInteger, InfluxLineError>)
    ensures r.Err? ==> r.error == IntegerNotParsed
    ensures r.Ok? <==> s != [] && s[|s| - 1] == 'i' && 'i' !in s[..|s| - 1]
                       && ParseI64(s[..|s| - 1]).Some?
    ensures r.Ok? ==> ParseI64(s[..|s| - 1]) == Some(r.value.value)
  {
    match SplitOnce(s, 'i')
    case None => Err(IntegerNotParsed)
    case Some((slice, rest)) =>
      assert s == slice + ['i'] + rest;
      if rest != [] then
        assert s[|slice|] == 'i';
        Err(IntegerNotParsed)
      else
        assert s[..|s| - 1] == slice;
        match ParseI64(slice)
        case None => Err(IntegerNotParsed)
        case Some(v) => Ok(InfluxInteger(v))
  }

  /** `InfluxUInteger::from_str`: split at the first `u`, require nothing after it, parse the rest. */
  function ParseUInteger(s: string): (r: Result<InfluxUInteger, InfluxLineError>)
    ensures r.Err? ==> r.error == UIntegerNotParsed
    ensures r.Ok? <==> s != [] && s[|s| - 1] == 'u' && 'u' !in s[..|s| - 1]
                       && ParseU64(s[..|s| - 1]).Some?
    ensures r.Ok? ==> ParseU64(s[..|s| - 1]) == Some(r.value.value)
  {
    match SplitOnce(s, 'u')
    case None => Err(UIntegerNotParsed)
    case Some((slice, rest)) =>
      assert s == slice + ['u'] + rest;
      if rest != [] then
        assert s[|slice|] == 'u';
        Err(UIntegerNotParsed)
      else
        assert s[..|s| - 1] == slice;
        match ParseU64(slice)
        case None => Err(UIntegerNotParsed)
        case Some(v) => Ok(InfluxUInteger(v))
  }

  /** `Display` of InfluxInteger: the decimal value followed by `i`. */
  function DisplayInteger(x: InfluxInteger): (r: string)
    ensures r != [] && r[|r| - 1] == 'i'
    ensures 'i' !in r[..|r| - 1] && ParseI64(r[..|r| - 1]) == Some(x.value)
  {
    var d := IntToDecimal(x.value);
    DecimalHasNoLetters(x.value, 'i');
    ParseI64OfDecimal(x.value);
    var r := d + "i";
    assert r[..|r| - 1] == d;
    r
  }

  /** `Display` of InfluxUInteger: the decimal value followed by `u`. */
  function DisplayUInteger(x: InfluxUInteger): (r: string)
    ensures r != [] && r[|r| - 1] == 'u'
    ensures 'u' !in r[..|r| - 1] && ParseU64(r[..|r| - 1]) == Some(x.value)
  {
    var d := NatToDecimal(x.value);
    DecimalHasNoLetters(x.value, 'u');
    assert IsDigit(d[0]);
    var r := d + "u";
    assert r[..|r| - 1] == d;
    r
  }

  /** Decimals contain digits and at most a leading `-`: never a suffix letter. */
  lemma DecimalHasNoLetters(x: int, c: char)
    requires c != '-' && !IsDigit(c)
    ensures c !in IntToDecimal(x)
  {
    var d := IntToDecimal(x);
    if x < 0 {
      assert forall j :: 1 <= j < |d| ==> d[j] == NatToDecimal(-x)[j - 1];
    }
    assert forall j :: 0 <= j < |d| ==> d[j] == '-' || IsDigit(d[j]);
  }

  /** The signed parse reads back every decimal Rust's `Display` prints. */
  lemma ParseI64OfDecimal(v: i64)
    ensures ParseI64(IntToDecimal(v)) == Some(v)
  {
    var d := IntToDecimal(v);
    if v < 0 {
      assert d[1..] == NatToDecimal(-(v as int));
    } else {
      assert IsDigit(d[0]);
    }
  }

  /** Formatting then parsing gives back every InfluxInteger. */
  lemma IntegerRoundTrip(x: InfluxInteger)
    ensures ParseInteger(DisplayInteger(x)) == Ok(x)
  {
    var d := IntToDecimal(x.value);
    DecimalHasNoLetters(x.value, 'i');
    assert DisplayInteger(x)[..|d|] == d;
    ParseI64OfDecimal(x.value);
  }

  /** Formatting then parsing gives back every InfluxUInteger. */
  lemma UIntegerRoundTrip(x: InfluxUInteger)
    ensures ParseUInteger(DisplayUInteger(x)) == Ok(x)
  {
    var d := NatToDecimal(x.value);
    DecimalHasNoLetters(x.value, 'u');
    assert DisplayUInteger(x)[..|d|] == d;
    assert IsDigit(d[0]);
  }

  /** The suffixes do not mix: an integer's text is no unsigned integer and vice versa. */
  lemma SuffixesDoNotMix(x: InfluxInteger, y: InfluxUInteger)
    ensures ParseUInteger(DisplayInteger(x)) == Err(UIntegerNotParsed)
    ensures ParseInteger(DisplayUInteger(y)) == Err(IntegerNotParsed)
  {
    var dx, dy := DisplayInteger(x), DisplayUInteger(y);
    DecimalHasNoLetters(x.value, 'u');
    DecimalHasNoLetters(y.value, 'i');
    assert dx == IntToDecimal(x.value) + ['i'];
    assert dy == IntToDecimal(y.value) + ['u'];
  }

  /** A negative value parses as an Integer but its digits with `u` are no UInteger. */
  lemma NegativeIsNoUInteger(x: InfluxInteger)
    requires x.value < 0
    ensures ParseInteger(IntToDecimal(x.value) + "i") == Ok(x)
    ensures ParseUInteger(IntToDecimal(x.value) + "u") == Err(UIntegerNotParsed)
  {
    IntegerRoundTrip(x);
    var s := IntToDecimal(x.value) + "u";
    DecimalHasNoLetters(x.value, 'u');
    assert s[..|s| - 1] == IntToDecimal(x.value);
  }

  /** Successful cases of integer.rs's tests. */
  lemma ParsesPositive()
    ensures ParseInteger("123i") == Ok(InfluxInteger(123))
  {
    assert "123i"[..3] == "123";
    assert DigitsValue("123") == 123 by {
      assert "123"[..2] == "12" && "12"[..1] == "1" && "1"[..0] == [];
    }
  }

  lemma ParsesNegative()
    ensures ParseInteger("-25565i") == Ok(InfluxInteger(-25565))
  {
    var n, d, digits := "-25565i", "-25565", "25565";
    assert n[..|n| - 1] == d && d[1..] == digits;
    assert 'i' !in d;
    assert DigitsValue("25") == 25 by {
      assert "25"[..1] == "2" && "2"[..0] == [];
    }
    assert DigitsValue("255") == 255 by {
      assert "255"[..2] == "25";
    }
    assert DigitsValue("2556") == 2556 by {
      assert "2556"[..3] == "255";
    }
    assert DigitsValue(digits) == 25565 by {
      assert digits[..4] == "2556";
    }
    assert ParseI64(d) == Some(-25565);
  }

  lemma ParsesUnsignedZero()
    ensures ParseUInteger("0u") == Ok(InfluxUInteger(0))
  {
    assert "0u"[..1] == "0" && "0"[..0] == [];
  }

  /** Failing cases of integer.rs's tests: no suffix, and garbage before the suffix. */
  lemma RejectsMissingSuffix()
    ensures ParseInteger("0") == Err(IntegerNotParsed)
    ensures ParseInteger("") == Err(IntegerNotParsed)
    ensures ParseUInteger("128.0") == Err(UIntegerNotParsed)
  {
    assert "128.0"[4] != 'u';
  }

  lemma RejectsWord()
    ensures ParseInteger("randomi") == Err(IntegerNotParsed)
  {
    var slice := "randomi"[..6];
    assert slice == "random" && !IsDigit(slice[0]);
    assert ParseI64(slice) == None;
  }

  lemma RejectsSpace()
    ensures ParseInteger("123 01i") == Err(IntegerNotParsed)
  {
    var slice := "123 01i"[..6];
    assert slice == "123 01" && !IsDigit(slice[3]);
    assert ParseI64(slice) == None;
  }

  // Narrowing conversions

  datatype SignedWidth = I32 | I16 | I8
  datatype UnsignedWidth = U32 | U16 | U8

  function SignedMin(w: SignedWidth): int {
    match w
    case I32 => -0x8000_0000
    case I16 => -0x8000
    case I8 => -0x80
  }

  function SignedMax(w: SignedWidth): int {
    match w
    case I32 => 0x7FFF_FFFF
    case I16 => 0x7FFF
    case I8 => 0x7F
  }

  function UnsignedMax(w: UnsignedWidth): int {
    match w
    case U32 => 0xFFFF_FFFF
    case U16 => 0xFFFF
    case U8 => 0xFF
  }

  /** `TryFrom<InfluxInteger>` for i32, i16 and i8: the value itself when it fits, else TypeConversion. */
  function NarrowInteger(x: InfluxInteger, w: SignedWidth): (r: Result<int, InfluxLineError>)
    ensures r.Ok? <==> SignedMin(w) <= x.value <= SignedMax(w)
    ensures r.Ok? ==> r.value == x.value
    ensures r.Err? ==> r.error == TypeConversion
  {
    if SignedMin(w) <= x.value <= SignedMax(w) then Ok(x.value) else Err(TypeConversion)
  }

  /** `TryFrom<InfluxUInteger>` for u32, u16 and u8: the value itself when it fits, else TypeConversion. */
  function NarrowUInteger(x: InfluxUInteger, w: UnsignedWidth): (r: Result<int, InfluxLineError>)
    ensures r.Ok? <==> x.value <= UnsignedMax(w)
    ensures r.Ok? ==> r.value == x.value
    ensures r.Err? ==> r.error == TypeConversion
  {
    if x.value <= UnsignedMax(w) then Ok(x.value) else Err(TypeConversion)
  }

  /**
   * The derived `From` conversions widen without loss, and narrowing undoes them:
   * a narrow value converted to InfluxInteger narrows back to itself.
   */
  lemma WidenThenNarrow(v: int, w: SignedWidth)
    requires SignedMin(w) <= v <= SignedMax(w)
    ensures I64Min <= v <= I64Max
    ensures NarrowInteger(InfluxInteger(v), w) == Ok(v)
  {
  }

  lemma WidenThenNarrowUnsigned(v: nat, w: UnsignedWidth)
    requires v <= UnsignedMax(w)
    ensures v <= U64Max
    ensures NarrowUInteger(InfluxUInteger(v), w) == Ok(v)
  {
  }

  /** A value that fits a narrow type fits every wider one. */
  lemma NarrowingIsMonotone(x: InfluxInteger, y: InfluxUInteger)
    ensures NarrowInteger(x, I8).Ok? ==> NarrowInteger(x, I16).Ok?
    ensures NarrowInteger(x, I16).Ok? ==> NarrowInteger(x, I32).Ok?
    ensures NarrowUInteger(y, U8).Ok? ==> NarrowUInteger(y, U16).Ok?
    ensures NarrowUInteger(y, U16).Ok? ==> NarrowUInteger(y, U32).Ok?
  {
  }
}
