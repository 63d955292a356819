/**
 * RawDateNormalizer: normalises a date given as text to the sortable ISO 8601 form.
 *
 * A value is parsed first with the date library against a list of patterns; if that fails, or yields a
 * date outside the sane range, the text is read as a count of milliseconds since the epoch by a
 * hand-written digit loop. Both readings must pass the same sanity check.
 *
 * A `java.util.Date` is modelled by its `getTime()`, milliseconds since the epoch. The library parse and
 * `SimpleDateFormat.format` are oracles: their outcomes are parameters.
 */
module RawDate {
  import opened Wrappers
  import opened JavaTypes

  const ISO_8601_FORMAT_STRING: string := "yyyy-MM-dd'T'HH:mm:ss.SSS'Z'"

  /** The patterns tried by the library parse and used by `formatAll`, in this order. */
  const FORMAT_STRINGS: seq<string> := [
    "EEE MMM dd HH:mm:ss zzz yyyy", ISO_8601_FORMAT_STRING, "yyyyMMddHHmmss", "yyyy-MM-dd HH:mm:ssz",
    "yyyy-MM-dd HH:mm:ss'Z'", "yyyy-MM-dd HH:mm:ss", "yyyy-MM-dd", "yyyy-MM-dd'T'HH'|'mm",
    "yyyy-MM-dd'T'HH:mm:ss'Z'", "yyyy-MM-dd'T'HH:mm:ssXXX"]

  /** A date, as milliseconds since 1970-01-01T00:00:00Z. */
  type Date = Long

  /** The exclusive upper bound of a sane date: 2100-12-31T00:00:00Z in milliseconds. */
  const SANITY_LIMIT: Long := 4133894400000

  datatype NormalizeError = IllegalArgument(message: string)

  function FailedToNormalize(fieldValue: string): NormalizeError {
    IllegalArgument("Failed to normalize value as a Date: " + fieldValue)
  }

  // ---------------------------------------------------------------------------------------------
  // The calendar, as a reference for the sanity bounds

  const MILLIS_PER_DAY: int := 86400000

  /** Cumulative days before each month of a common year. */
  const DAYS_BEFORE_MONTH: seq<int> := [0, 31, 59, 90, 120, 151, 181, 212, 243, 273, 304, 334]

  predicate IsLeapYear(y: int) {
    y % 4 == 0 && (y % 100 != 0 || y % 400 == 0)
  }

  /** The number of leap years among 1 .. y of the Gregorian calendar. */
  function LeapYearsThrough(y: nat): nat {
    y / 4 - y / 100 + y / 400
  }

  /** Days from 1970-01-01 to the given date (Gregorian calendar, UTC). */
  function EpochDay(year: int, month: int, day: int): int
    requires 1970 <= year && 1 <= month <= 12 && 1 <= day <= 31
  {
    365 * (year - 1970) + (LeapYearsThrough(year - 1) - LeapYearsThrough(1969))
    + DAYS_BEFORE_MONTH[month - 1] + (if month > 2 && IsLeapYear(year) then 1 else 0) + day - 1
  }

  /** The calendar days of the two ends of the sanity window. */
  lemma CalendarBounds()
    ensures EpochDay(1970, 1, 1) == 0 && EpochDay(2100, 12, 31) == 47846
  {
  }

  /** sanityCheck: the date lies from 1970-01-01T00:00Z up to, but not including, 2100-12-31T00:00Z. */
  function SanityCheck(dateLong: Long): (sane: bool)
    ensures sane <==> EpochDay(1970, 1, 1) * MILLIS_PER_DAY <= dateLong < EpochDay(2100, 12, 31) * MILLIS_PER_DAY
  {
    CalendarBounds();
    0 <= dateLong < SANITY_LIMIT
  }

  predicate IsDigit(c: char) {
    '0' <= c <= '9'
  }

  predicate AllDigits(s: string) {
    forall i :: 0 <= i < |s| ==> IsDigit(s[i])
  }

  function DigitValue(c: char): (d: int)
    requires IsDigit(c)
    ensures 0 <= d <= 9
  {
    c as int - '0' as int
  }

  /** The exact value of a string of decimal digits. */
  function DecimalValue(s: string): nat
    requires AllDigits(s)
    decreases |s|
  {
    if s == [] then 0 else DecimalValue(s[..|s| - 1]) * 10 + DigitValue(s[|s| - 1])
  }

  /** What the fallback loop accumulates over a digit string: left to right, `dateLong *= 10` then
      `dateLong += digit`, each in 64-bit arithmetic. */
  function LongAccumulate(s: string): Long
    requires AllDigits(s)
    decreases |s|
  {
    if s == [] then 0 else WrapLong(WrapLong(LongAccumulate(s[..|s| - 1]) * 10) + DigitValue(s[|s| - 1]))
  }

  // ---------------------------------------------------------------------------------------------
  // parseToDate, as written

  /** The outcome of parseToDate for `fieldValue`, where `library` is the outcome of the library parse
      (None when it throws ParseException). */
  function ParseToDateSpec(fieldValue: string, library: Option<Date>): Result<Date, NormalizeError> {
    if library.Some? && SanityCheck(library.value) then Success(library.value)
    else if AllDigits(fieldValue) && SanityCheck(LongAccumulate(fieldValue)) then Success(LongAccumulate(fieldValue))
    else Failure(FailedToNormalize(fieldValue))
  }

  /** parseToDate: the library result if it is sane, else the digit fallback if it is valid and sane,
      else IllegalArgumentException. */
  method ParseToDate(fieldValue: string, library: Option<Date>) returns (r: Result<Date, NormalizeError>)
    ensures r == ParseToDateSpec(fieldValue, library)
  {
    if library.Some? && SanityCheck(library.value) {
      return Success(library.value);
    }

    // see if fieldValue looks like a Long value
    var valid := true;
    var size := |fieldValue|;
    var dateLong: Long := 0;
    for i := 0 to size
      invariant valid
      invariant AllDigits(fieldValue[..i]) && dateLong == LongAccumulate(fieldValue[..i])
    {
      var c := fieldValue[i];
      if IsDigit(c) {
        assert fieldValue[..i + 1][..i] == fieldValue[..i];
        dateLong := WrapLong(dateLong * 10);
        dateLong := WrapLong(dateLong + DigitValue(c));
      } else {
        valid := false;
        assert !AllDigits(fieldValue);
        break;
      }
    }
    assert valid ==> fieldValue[..size] == fieldValue;
    if valid && SanityCheck(dateLong) {
      return Success(dateLong);
    }
    return Failure(FailedToNormalize(fieldValue));
  }

  // ---------------------------------------------------------------------------------------------
  // Properties of parseToDate

  /** parseToDate either returns a sane date or throws IllegalArgumentException naming the value. */
  lemma ParseToDateSane(fieldValue: string, library: Option<Date>)
    ensures ParseToDateSpec(fieldValue, library).Success? ==> SanityCheck(ParseToDateSpec(fieldValue, library).value)
    ensures ParseToDateSpec(fieldValue, library).Failure? ==>
      ParseToDateSpec(fieldValue, library).error == FailedToNormalize(fieldValue)
  {
  }

  /** A sane library result is returned without the fallback; any other library outcome leaves the
      result to the fallback alone. */
  lemma LibraryResultFirst(fieldValue: string, library: Option<Date>)
    ensures library.Some? && SanityCheck(library.value) ==> ParseToDateSpec(fieldValue, library) == Success(library.value)
    ensures !(library.Some? && SanityCheck(library.value)) ==>
      ParseToDateSpec(fieldValue, library) == ParseToDateSpec(fieldValue, None)
  {
  }

  /** With the library parse failing, a value holding any non-digit is rejected. */
  lemma NonDigitRejected(fieldValue: string, library: Option<Date>, i: nat)
    requires !(library.Some? && SanityCheck(library.value))
    requires i < |fieldValue| && !IsDigit(fieldValue[i])
    ensures ParseToDateSpec(fieldValue, library) == Failure(FailedToNormalize(fieldValue))
  {
  }

  /** With the library parse failing, the empty string is read as the epoch. */
  lemma EmptyIsEpoch(library: Option<Date>)
    requires !(library.Some? && SanityCheck(library.value))
    ensures ParseToDateSpec("", library) == Success(0)
  {
  }

  /** The loop's 64-bit accumulation is the exact decimal value reduced modulo 2^64. */
  lemma {:induction false} LongAccumulateWraps(s: string)
    requires AllDigits(s)
    ensures LongAccumulate(s) == WrapLong(DecimalValue(s))
    decreases |s|
  {
    if s != [] {
      var init := s[..|s| - 1];
      var d := DigitValue(s[|s| - 1]);
      assert AllDigits(init);
      LongAccumulateWraps(init);
      WrapStep(LongAccumulate(init), DecimalValue(init), d);
    }
  }

  /** One step of the loop keeps its value congruent to the exact value modulo 2^64. */
  lemma WrapStep(a: Long, v: int, d: int)
    requires a == WrapLong(v)
    ensures WrapLong(WrapLong(a * 10) + d) == WrapLong(v * 10 + d)
  {
    var k := WrapLongQuotient(v);
    var w := WrapLong(a * 10);
    var j := WrapLongQuotient(a * 10);
    assert v * 10 + d == w + d + (j + k * 10) * TWO_TO_THE_64;
    WrapLongShift(w + d, j + k * 10);
  }

  /** Below 2^63 the loop's value is the exact decimal value of the digits. */
  lemma LongAccumulateExact(s: string)
    requires AllDigits(s) && DecimalValue(s) <= MAX_LONG
    ensures LongAccumulate(s) == DecimalValue(s)
  {
    LongAccumulateWraps(s);
  }

  /** With the library parse failing, a digit string whose value fits a `long` is accepted exactly when
      that value is a sane date, and then that value is returned. */
  lemma DigitsReadExactly(fieldValue: string, library: Option<Date>)
    requires !(library.Some? && SanityCheck(library.value))
    requires AllDigits(fieldValue) && DecimalValue(fieldValue) <= MAX_LONG
    ensures ParseToDateSpec(fieldValue, library).Success? <==> DecimalValue(fieldValue) < SANITY_LIMIT
    ensures ParseToDateSpec(fieldValue, library).Success? ==>
      ParseToDateSpec(fieldValue, library).value == DecimalValue(fieldValue)
  {
    LongAccumulateExact(fieldValue);
  }

  function Pow10(n: nat): nat {
    if n == 0 then 1 else 10 * Pow10(n - 1)
  }

  /** Reading `a` then `b` shifts the value of `a` left by the length of `b`. */
  lemma {:induction false} DecimalValueConcat(a: string, b: string)
    requires AllDigits(a) && AllDigits(b)
    ensures AllDigits(a + b) && DecimalValue(a + b) == DecimalValue(a) * Pow10(|b|) + DecimalValue(b)
    decreases |b|
  {
    assert AllDigits(a + b) by {
      forall i | 0 <= i < |a + b| ensures IsDigit((a + b)[i]) {
        if i < |a| { assert (a + b)[i] == a[i]; } else { assert (a + b)[i] == b[i - |a|]; }
      }
    }
    if b == [] {
      assert a + b == a;
    } else {
      var b' := b[..|b| - 1];
      assert AllDigits(b');
      assert (a + b)[..|a + b| - 1] == a + b';
      assert (a + b)[|a + b| - 1] == b[|b| - 1];
      DecimalValueConcat(a, b');
      calc {
        DecimalValue(a + b);
        DecimalValue(a + b') * 10 + DigitValue(b[|b| - 1]);
        (DecimalValue(a) * Pow10(|b'|) + DecimalValue(b')) * 10 + DigitValue(b[|b| - 1]);
        DecimalValue(a) * (Pow10(|b'|) * 10) + (DecimalValue(b') * 10 + DigitValue(b[|b| - 1]));
      }
    }
  }

  /** The value of five digits, written out. */
  lemma FiveDigits(s: string)
    requires |s| == 5 && AllDigits(s)
    ensures DecimalValue(s) ==
      DigitValue(s[0]) * 10000 + DigitValue(s[1]) * 1000 + DigitValue(s[2]) * 100 + DigitValue(s[3]) * 10 + DigitValue(s[4])
  {
    assert s[..4][..3] == s[..3] && s[..3][..2] == s[..2] && s[..2][..1] == s[..1] && s[..1][..0] == [];
    assert DecimalValue(s[..1]) == DigitValue(s[0]);
    assert DecimalValue(s[..2]) == DecimalValue(s[..1]) * 10 + DigitValue(s[1]);
    assert DecimalValue(s[..3]) == DecimalValue(s[..2]) * 10 + DigitValue(s[2]);
    assert DecimalValue(s[..4]) == DecimalValue(s[..3]) * 10 + DigitValue(s[3]);
    assert DecimalValue(s) == DecimalValue(s[..4]) * 10 + DigitValue(s[4]);
  }

  /** The digits of 2^64 wrap to 0, so parseToDate as written accepts them as the epoch, where
      Long.parseLong would have rejected the value. */
  lemma WrappedDigitsAccepted()
    ensures AllDigits("18446744073709551616")
    ensures DecimalValue("18446744073709551616") == TWO_TO_THE_64
    ensures ParseToDateSpec("18446744073709551616", None) == Success(0)
  {
    var s := "18446744073709551616";
    DigitsOfTwoToThe64();
    LongAccumulateWraps(s);
    assert WrapLong(TWO_TO_THE_64) == 0;
    assert SanityCheck(LongAccumulate(s));
  }

  /** The digit string of 2^64 has that value. */
  lemma DigitsOfTwoToThe64()
    ensures AllDigits("18446744073709551616")
    ensures DecimalValue("18446744073709551616") == TWO_TO_THE_64
  {
    var p, q, u, v := "18446", "74407", "37095", "51616";
    assert AllDigits(p) && AllDigits(q) && AllDigits(u) && AllDigits(v);
    FiveDigits(p);
    FiveDigits(q);
    FiveDigits(u);
    FiveDigits(v);
    assert Pow10(5) == 100000 by {
      assert Pow10(1) == 10;
      assert Pow10(3) == 1000;
    }
    DecimalValueConcat(p, q);
    assert DecimalValue(p + q) == 1844674407;
    DecimalValueConcat(p + q, u);
    assert DecimalValue(p + q + u) == 184467440737095;
    DecimalValueConcat(p + q + u, v);
    var s := "18446744073709551616";
    assert s == p + q + u + v;
  }

  // ---------------------------------------------------------------------------------------------
  // parseToDate with the fallback rejecting values beyond Long.MAX_VALUE

  /** The outcome of parseToDate when the fallback reads the digits as Long.parseLong would. */
  function ParseToDateCheckedSpec(fieldValue: string, library: Option<Date>): Result<Date, NormalizeError> {
    if library.Some? && SanityCheck(library.value) then Success(library.value)
    else if AllDigits(fieldValue) && DecimalValue(fieldValue) < SANITY_LIMIT then Success(DecimalValue(fieldValue))
    else Failure(FailedToNormalize(fieldValue))
  }

  /** The decimal value of a digit string is at least that of each of its prefixes. */
  lemma {:induction false} DecimalValuePrefix(s: string, k: nat)
    requires AllDigits(s) && k <= |s|
    ensures AllDigits(s[..k]) && DecimalValue(s[..k]) <= DecimalValue(s)
    decreases |s| - k
  {
    if k < |s| {
      assert s[..k + 1][..k] == s[..k];
      DecimalValuePrefix(s, k + 1);
    } else {
      assert s[..k] == s;
    }
  }

  /** parseToDate, with an overflow check in the digit loop. */
  method ParseToDateChecked(fieldValue: string, library: Option<Date>) returns (r: Result<Date, NormalizeError>)
    ensures r == ParseToDateCheckedSpec(fieldValue, library)
  {
    if library.Some? && SanityCheck(library.value) {
      return Success(library.value);
    }

    var valid := true;
    var size := |fieldValue|;
    var dateLong: Long := 0;
    for i := 0 to size
      invariant valid
      invariant AllDigits(fieldValue[..i]) && dateLong == DecimalValue(fieldValue[..i])
    {
      var c := fieldValue[i];
      if IsDigit(c) {
        var d := DigitValue(c);
        assert fieldValue[..i + 1][..i] == fieldValue[..i];
        if dateLong > (MAX_LONG - d) / 10 {
          valid := false;
          assert fieldValue[..i + 1][i] == c;
          assert DecimalValue(fieldValue[..i + 1]) == dateLong * 10 + d;
          assert dateLong * 10 + d > MAX_LONG by {
            var q := (MAX_LONG - d) / 10;
            assert MAX_LONG - d == q * 10 + (MAX_LONG - d) % 10;
            assert dateLong >= q + 1;
          }
          if AllDigits(fieldValue) {
            DecimalValuePrefix(fieldValue, i + 1);
          }
          break;
        }
        dateLong := dateLong * 10 + d;
      } else {
        valid := false;
        assert !AllDigits(fieldValue);
        break;
      }
    }
    assert valid ==> fieldValue[..size] == fieldValue;
    if valid && SanityCheck(dateLong) {
      return Success(dateLong);
    }
    return Failure(FailedToNormalize(fieldValue));
  }

  /** The checked reading accepts a digit string exactly when its exact value is a sane date. */
  lemma CheckedDigitsReadExactly(fieldValue: string, library: Option<Date>)
    requires !(library.Some? && SanityCheck(library.value))
    ensures ParseToDateCheckedSpec(fieldValue, library).Success? <==>
      AllDigits(fieldValue) && DecimalValue(fieldValue) < SANITY_LIMIT
    ensures ParseToDateCheckedSpec(fieldValue, library).Success? ==>
      ParseToDateCheckedSpec(fieldValue, library).value == DecimalValue(fieldValue)
  {
  }

  /** The checked and the as-written readings differ only on digit strings beyond Long.MAX_VALUE. */
  lemma CheckedAgreesWithoutOverflow(fieldValue: string, library: Option<Date>)
    requires !AllDigits(fieldValue) || DecimalValue(fieldValue) <= MAX_LONG
    ensures ParseToDateCheckedSpec(fieldValue, library) == ParseToDateSpec(fieldValue, library)
  {
    if AllDigits(fieldValue) {
      LongAccumulateExact(fieldValue);
    }
  }

  /** The checked reading rejects the digits of 2^64. */
  lemma CheckedRejectsWrappedDigits()
    ensures ParseToDateCheckedSpec("18446744073709551616", None).Failure?
  {
    WrappedDigitsAccepted();
  }

  // ---------------------------------------------------------------------------------------------
  // formatAll, expand, normalize and the identities

  /** The non-null, non-empty results of formatting `date` with each pattern, in pattern order;
      `format(pattern, date)` is SimpleDateFormat.format in GMT (None for null). */
  function Formatted(patterns: seq<string>, format: (string, Date) -> Option<string>, date: Date): seq<string>
    decreases |patterns|
  {
    if patterns == [] then []
    else
      var formatted := format(patterns[|patterns| - 1], date);
      var init := Formatted(patterns[..|patterns| - 1], format, date);
      if formatted.Some? && |formatted.value| > 0 then init + [formatted.value] else init
  }

  /** A string is listed exactly when some pattern formats the date to it and it is not empty. */
  lemma {:induction false} FormattedMembers(patterns: seq<string>, format: (string, Date) -> Option<string>, date: Date)
    ensures forall s :: s in Formatted(patterns, format, date) <==>
      |s| > 0 && exists i :: 0 <= i < |patterns| && format(patterns[i], date) == Some(s)
    decreases |patterns|
  {
    if patterns != [] {
      var init := patterns[..|patterns| - 1];
      FormattedMembers(init, format, date);
      forall s ensures (exists i :: 0 <= i < |patterns| && format(patterns[i], date) == Some(s)) <==>
        (exists i :: 0 <= i < |init| && format(init[i], date) == Some(s)) || format(patterns[|patterns| - 1], date) == Some(s)
      {
        if exists i :: 0 <= i < |patterns| && format(patterns[i], date) == Some(s) {
          var i :| 0 <= i < |patterns| && format(patterns[i], date) == Some(s);
          if i < |init| { assert init[i] == patterns[i]; }
        }
        if exists i :: 0 <= i < |init| && format(init[i], date) == Some(s) {
          var i :| 0 <= i < |init| && format(init[i], date) == Some(s);
          assert patterns[i] == init[i];
        }
      }
    }
  }

  /** Formatting keeps pattern order: the list for two pattern lists is the concatenation of their lists. */
  lemma {:induction false} FormattedAppend(p1: seq<string>, p2: seq<string>, format: (string, Date) -> Option<string>, date: Date)
    ensures Formatted(p1 + p2, format, date) == Formatted(p1, format, date) + Formatted(p2, format, date)
    decreases |p2|
  {
    if p2 == [] {
      assert p1 + p2 == p1;
    } else {
      var init := p2[..|p2| - 1];
      assert (p1 + p2)[..|p1 + p2| - 1] == p1 + init;
      assert (p1 + p2)[|p1 + p2| - 1] == p2[|p2| - 1];
      FormattedAppend(p1, init, format, date);
    }
  }

  /** formatAll: format the date with every pattern, keeping the non-null, non-empty results. */
  method FormatAll(format: (string, Date) -> Option<string>, date: Date) returns (list: seq<string>)
    ensures list == Formatted(FORMAT_STRINGS, format, date)
  {
    list := [];
    for i := 0 to |FORMAT_STRINGS|
      invariant list == Formatted(FORMAT_STRINGS[..i], format, date)
    {
      var formatted := format(FORMAT_STRINGS[i], date);
      assert FORMAT_STRINGS[..i + 1][..i] == FORMAT_STRINGS[..i];
      if formatted.Some? && |formatted.value| > 0 {
        list := list + [formatted.value];
      }
    }
    assert FORMAT_STRINGS[..|FORMAT_STRINGS|] == FORMAT_STRINGS;
  }

  /** expand: every formatting of the parsed date; the parse error propagates. Because a parsed date is
      always sane, the empty-list branch is never taken. */
  method Expand(dateString: string, library: Option<Date>, format: (string, Date) -> Option<string>)
    returns (r: Result<seq<string>, NormalizeError>)
    ensures ParseToDateSpec(dateString, library).Failure? ==>
      r == Failure(ParseToDateSpec(dateString, library).error)
    ensures ParseToDateSpec(dateString, library).Success? ==>
      r == Success(Formatted(FORMAT_STRINGS, format, ParseToDateSpec(dateString, library).value))
  {
    var date := ParseToDate(dateString, library);
    ParseToDateSane(dateString, library);
    if date.Failure? {
      return Failure(date.error);
    }
    if SanityCheck(date.value) {
      var all := FormatAll(format, date.value);
      return Success(all);
    }
    r := Success([]);
    assert false;
  }

  /** normalize (and normalizeDelegateType): the parsed date in the sortable ISO 8601 form, produced by
      the oracle `iso`; the parse error propagates. */
  method Normalize(fieldValue: string, library: Option<Date>, iso: Date -> string)
    returns (r: Result<string, NormalizeError>)
    ensures ParseToDateSpec(fieldValue, library).Failure? ==>
      r == Failure(ParseToDateSpec(fieldValue, library).error)
    ensures ParseToDateSpec(fieldValue, library).Success? ==>
      r == Success(iso(ParseToDateSpec(fieldValue, library).value))
  {
    var date := ParseToDate(fieldValue, library);
    if date.Failure? {
      return Failure(date.error);
    }
    return Success(iso(date.value));
  }

  /** expand over the corrected parse: a digit string beyond `Long.MAX_VALUE` is an error, not a date. */
  method ExpandChecked(dateString: string, library: Option<Date>, format: (string, Date) -> Option<string>)
    returns (r: Result<seq<string>, NormalizeError>)
    ensures ParseToDateCheckedSpec(dateString, library).Failure? ==>
      r == Failure(ParseToDateCheckedSpec(dateString, library).error)
    ensures ParseToDateCheckedSpec(dateString, library).Success? ==>
      r == Success(Formatted(FORMAT_STRINGS, format, ParseToDateCheckedSpec(dateString, library).value))
  {
    var date := ParseToDateChecked(dateString, library);
    if date.Failure? {
      return Failure(date.error);
    }
    if SanityCheck(date.value) {
      var all := FormatAll(format, date.value);
      return Success(all);
    }
    r := Success([]);
    assert false;
  }

  /** normalize over the corrected parse. */
  method NormalizeChecked(fieldValue: string, library: Option<Date>, iso: Date -> string)
    returns (r: Result<string, NormalizeError>)
    ensures ParseToDateCheckedSpec(fieldValue, library).Failure? ==>
      r == Failure(ParseToDateCheckedSpec(fieldValue, library).error)
    ensures ParseToDateCheckedSpec(fieldValue, library).Success? ==>
      r == Success(iso(ParseToDateCheckedSpec(fieldValue, library).value))
  {
    var date := ParseToDateChecked(fieldValue, library);
    if date.Failure? {
      return Failure(date.error);
    }
    return Success(iso(date.value));
  }

  /** normalizeRegex: regular expressions cannot be normalised against dates and are returned unchanged. */
  function NormalizeRegex(fieldRegex: string): (r: string)
    ensures r == fieldRegex
  {
    fieldRegex
  }

  /** denormalize: the normalised form is returned unchanged. */
  function Denormalize(normalized: string): (r: string)
    ensures r == normalized
  {
    normalized
  }
}
