/** Calendar arithmetic behind `new Date(year, month, day, …)`: proleptic
    Gregorian months over epoch milliseconds, with the JavaScript month
    index (0 = January) normalised as the Date constructor does. Time zones
    and daylight saving are not part of this model (all readings are UTC). */
module Calendar {
  import opened Common

  /** `{ getFullYear(), getMonth() }` of a date: the month is 0-based. */
  datatype YearMonth = YearMonth(year: int, month0: int)

  predicate Valid(ym: YearMonth) {
    0 <= ym.month0 < 12
  }

  predicate Leap(y: int) {
    (y % 4 == 0 && y % 100 != 0) || y % 400 == 0
  }

  function DaysInMonth(y: int, m0: int): (r: int)
    requires 0 <= m0 < 12
    ensures 28 <= r <= 31
    ensures m0 == 1 ==> (r == 29 <==> Leap(y))
  {
    if m0 == 1 then (if Leap(y) then 29 else 28)
    else if m0 == 3 || m0 == 5 || m0 == 8 || m0 == 10 then 30
    else 31
  }

  function YearDays(y: int): int {
    if Leap(y) then 366 else 365
  }

  /** `new Date(y, m, …)` for any month index: out-of-range months roll the year. */
  function Normalize(y: int, m: int): (r: YearMonth)
    ensures Valid(r)
    ensures r.year * 12 + r.month0 == y * 12 + m
  {
    YearMonth(y + m / 12, m % 12)
  }

  /** The year `new Date(y, m, …)` takes for a year argument `y`: 0 to 99
      stand for 1900 to 1999, every other year is itself. */
  function FullYear(y: int): (r: int)
    ensures 0 <= y <= 99 ==> r == 1900 + y
    ensures y >= 100 ==> r == y
  {
    if 0 <= y <= 99 then 1900 + y else y
  }

  /** Months since January of year 0, a linear index of months. */
  function Index(ym: YearMonth): int {
    ym.year * 12 + ym.month0
  }

  lemma NormalizeByIndex(y: int, m: int, ym: YearMonth)
    requires Valid(ym) && Index(ym) == y * 12 + m
    ensures Normalize(y, m) == ym
  {
    var n := Normalize(y, m);
    assert Index(n) == Index(ym);
    assert (n.year - ym.year) * 12 == ym.month0 - n.month0;
  }

  /** The month after `ym`. */
  function NextMonth(ym: YearMonth): (r: YearMonth)
    ensures Valid(r) && Index(r) == Index(ym) + 1
  {
    Normalize(ym.year, ym.month0 + 1)
  }

  /** `new Date(y, m + 1, …)` is the month after `new Date(y, m, …)`. */
  lemma NormalizeNext(y: int, m: int)
    ensures Normalize(y, m + 1) == NextMonth(Normalize(y, m))
  {
    NormalizeByIndex(y, m + 1, NextMonth(Normalize(y, m)));
  }

  /** The length of the month with linear index `i`. */
  function MonthDays(i: int): (r: int)
    ensures 28 <= r <= 31
  {
    DaysInMonth(i / 12, i % 12)
  }

  /** Index of January 1970, the month of the epoch. */
  const EpochMonth := 1970 * 12

  /** Days from 1970-01-01 to the first day of the month with index `i`. */
  function StartDay(i: int): int
    decreases if i >= EpochMonth then i - EpochMonth else EpochMonth - i
  {
    if i == EpochMonth then 0
    else if i > EpochMonth then StartDay(i - 1) + MonthDays(i - 1)
    else StartDay(i + 1) - MonthDays(i)
  }

  /** Each month begins where the previous one's days run out. */
  lemma StartStep(i: int)
    ensures StartDay(i + 1) == StartDay(i) + MonthDays(i)
  {
  }

  /** `new Date(y, m, 1)` in milliseconds, for any month index `m`. */
  function MonthStart(ym: YearMonth): int {
    StartDay(Index(ym)) * DayMs
  }

  /** `new Date(y, m + 1, 0, 23, 59, 59, 999)`: the last millisecond of the month. */
  function MonthEnd(ym: YearMonth): int {
    StartDay(Index(ym) + 1) * DayMs - 1
  }

  /** The month with index `Index(ym)` is the calendar month `ym`. */
  lemma MonthDaysOf(ym: YearMonth)
    requires Valid(ym)
    ensures MonthDays(Index(ym)) == DaysInMonth(ym.year, ym.month0)
  {
    NormalizeByIndex(ym.year, ym.month0, ym);
  }

  /** A month spans exactly its number of days. */
  lemma MonthLength(ym: YearMonth)
    requires Valid(ym)
    ensures MonthEnd(ym) + 1 - MonthStart(ym) == DaysInMonth(ym.year, ym.month0) * DayMs
  {
    StartStep(Index(ym));
    MonthDaysOf(ym);
  }

  /** Month windows tile the time line: each starts one millisecond after the
      previous one ends, so every instant lies in exactly one of them. */
  lemma MonthsTile(ym: YearMonth)
    ensures MonthEnd(ym) + 1 == MonthStart(NextMonth(ym))
    ensures MonthStart(ym) < MonthEnd(ym)
  {
    StartStep(Index(ym));
  }

  /** Later months start later. */
  lemma {:induction false} MonthStartMonotone(a: YearMonth, b: YearMonth)
    requires Index(a) < Index(b)
    ensures MonthEnd(a) < MonthStart(b)
    decreases Index(b) - Index(a)
  {
    MonthsTile(a);
    if Index(a) + 1 < Index(b) {
      MonthStartMonotone(NextMonth(a), b);
      MonthsTile(NextMonth(a));
    }
  }

  /** A calendar year is twelve months and as many days as the year has. */
  lemma YearLength(y: int)
    ensures MonthEnd(YearMonth(y, 11)) + 1 - MonthStart(YearMonth(y, 0)) == YearDays(y) * DayMs
  {
    var i := y * 12;
    var k := 0;
    while k < 12
      invariant 0 <= k <= 12
      invariant StartDay(i + k) - StartDay(i) == DaysBeforeMonth(y, k)
    {
      StartStep(i + k);
      MonthDaysOf(YearMonth(y, k));
      k := k + 1;
    }
    YearDaysSum(y);
  }

  /** Days from January 1 of `y` to the first of month `m0`. */
  function DaysBeforeMonth(y: int, m0: int): int
    requires 0 <= m0 <= 12
  {
    if m0 == 0 then 0 else DaysBeforeMonth(y, m0 - 1) + DaysInMonth(y, m0 - 1)
  }

  lemma YearDaysSum(y: int)
    ensures DaysBeforeMonth(y, 12) == YearDays(y)
  {
    assert DaysBeforeMonth(y, 1) == DaysBeforeMonth(y, 0) + DaysInMonth(y, 0);
    assert DaysBeforeMonth(y, 2) == DaysBeforeMonth(y, 1) + DaysInMonth(y, 1);
    assert DaysBeforeMonth(y, 3) == DaysBeforeMonth(y, 2) + DaysInMonth(y, 2);
    assert DaysBeforeMonth(y, 4) == DaysBeforeMonth(y, 3) + DaysInMonth(y, 3);
    assert DaysBeforeMonth(y, 5) == DaysBeforeMonth(y, 4) + DaysInMonth(y, 4);
    assert DaysBeforeMonth(y, 6) == DaysBeforeMonth(y, 5) + DaysInMonth(y, 5);
    assert DaysBeforeMonth(y, 7) == DaysBeforeMonth(y, 6) + DaysInMonth(y, 6);
    assert DaysBeforeMonth(y, 8) == DaysBeforeMonth(y, 7) + DaysInMonth(y, 7);
    assert DaysBeforeMonth(y, 9) == DaysBeforeMonth(y, 8) + DaysInMonth(y, 8);
    assert DaysBeforeMonth(y, 10) == DaysBeforeMonth(y, 9) + DaysInMonth(y, 9);
    assert DaysBeforeMonth(y, 11) == DaysBeforeMonth(y, 10) + DaysInMonth(y, 10);
    assert DaysBeforeMonth(y, 12) == DaysBeforeMonth(y, 11) + DaysInMonth(y, 11);
  }

  /** The first instant of the last day of the month: `new Date(y, m0 + 1, 0)`. */
  function LastDayStart(ym: YearMonth): (r: int)
    ensures MonthStart(ym) < r < MonthEnd(ym)
    ensures MonthEnd(ym) - r == DayMs - 1
  {
    StartStep(Index(ym));
    StartDay(Index(ym) + 1) * DayMs - DayMs
  }

  // ---------------------------------------------------------------------
  // "YYYY-MM" text

  predicate IsDigit(c: char) {
    '0' <= c <= '9'
  }

  predicate AllDigits(s: string) {
    forall i :: 0 <= i < |s| ==> IsDigit(s[i])
  }

  function DecimalValue(s: string): (r: nat)
    requires AllDigits(s)
  {
    if s == [] then 0
    else DecimalValue(s[..|s| - 1]) * 10 + (s[|s| - 1] as int - '0' as int)
  }

  /** `Number(s)` for the forms a period part takes: surrounding whitespace
      is ignored, blank text is 0 and a run of decimal digits is its value.
      Only digit runs are read: every other text, including the numeric
      forms `Number` also accepts (a sign, a fraction, an exponent, a
      `0x`/`0o`/`0b` prefix, `Infinity`), is taken as NaN (`None`). */
  function NumberOf(s: string): (r: Option<int>)
    ensures Blank(s) ==> r == Some(0)
  {
    var t := Trim(s);
    if t == "" then Some(0)
    else if AllDigits(t) then Some(DecimalValue(t))
    else None
  }

  /** `s.split(c)`. */
  function Split(s: string, c: char): (r: seq<string>)
    ensures |r| >= 1
  {
    if s == [] then [""]
    else
      var rest := Split(s[1..], c);
      if s[0] == c then [""] + rest else [[s[0]] + rest[0]] + rest[1..]
  }

  lemma {:induction false} SplitNoSep(s: string, c: char)
    requires c !in s
    ensures Split(s, c) == [s]
  {
    if s != [] {
      SplitNoSep(s[1..], c);
      assert [s[0]] + s[1..] == s;
    }
  }

  lemma {:induction false} SplitAt(a: string, b: string, c: char)
    requires c !in a
    ensures Split(a + [c] + b, c) == [a] + Split(b, c)
  {
    if a == [] {
      assert a + [c] + b == [c] + b;
      assert ([c] + b)[1..] == b;
    } else {
      SplitAt(a[1..], b, c);
      assert (a + [c] + b)[1..] == a[1..] + [c] + b;
      assert [a[0]] + a[1..] == a;
    }
  }

  /** `const [year, mon] = s.split("-").map(Number)`, or `None` when either is
      NaN (a missing second part is `undefined`, which is NaN too). */
  function ParseYearMonth(s: string): (r: Option<(int, int)>)
    ensures r.Some? ==> |Split(s, '-')| >= 2
  {
    var parts := Split(s, '-');
    if |parts| < 2 then None
    else
      var y := NumberOf(parts[0]);
      var m := NumberOf(parts[1]);
      if y.Some? && m.Some? then Some((y.value, m.value)) else None
  }

  /** `String(n).padStart(2, "0")` for a month number. */
  function Pad2(n: nat): string {
    if n < 10 then "0" + NatToString(n) else NatToString(n)
  }

  /** `` `${getFullYear()}-${String(getMonth() + 1).padStart(2, "0")}` ``. */
  function FormatPeriod(ym: YearMonth): string
    requires Valid(ym)
  {
    IntToString(ym.year) + "-" + Pad2(ym.month0 + 1)
  }

  lemma {:induction false} DecimalOfNat(n: nat)
    ensures AllDigits(NatToString(n))
    ensures DecimalValue(NatToString(n)) == n
    decreases n
  {
    var d := [('0' as int + n % 10) as char];
    if n >= 10 {
      DecimalOfNat(n / 10);
      var s := NatToString(n);
      assert s == NatToString(n / 10) + d;
      assert s[..|s| - 1] == NatToString(n / 10);
    }
  }

  lemma LeadingZero(s: string)
    requires AllDigits(s)
    ensures AllDigits("0" + s) && DecimalValue("0" + s) == DecimalValue(s)
    decreases |s|
  {
    if s != [] {
      assert ("0" + s)[..|"0" + s| - 1] == "0" + s[..|s| - 1];
      LeadingZero(s[..|s| - 1]);
    }
  }

  lemma DigitsNotBlank(s: string)
    requires AllDigits(s) && s != []
    ensures Trim(s) == s
  {
    assert !IsWhitespace(s[0]) && !IsWhitespace(s[|s| - 1]);
  }

  /** `Number` reads a run of digits as its decimal value. */
  lemma NumberOfDigits(s: string)
    requires AllDigits(s) && s != []
    ensures NumberOf(s) == Some(DecimalValue(s))
  {
    DigitsNotBlank(s);
  }

  lemma NoSepInDigits(s: string)
    requires AllDigits(s)
    ensures '-' !in s
  {
    assert forall i :: 0 <= i < |s| ==> IsDigit(s[i]);
  }

  /** A month number padded to two digits. */
  lemma Pad2Digits(n: nat)
    ensures AllDigits(Pad2(n)) && Pad2(n) != [] && '-' !in Pad2(n)
    ensures DecimalValue(Pad2(n)) == n
  {
    DecimalOfNat(n);
    if n < 10 {
      LeadingZero(NatToString(n));
    }
    NoSepInDigits(Pad2(n));
  }

  lemma FormatPeriodText(ym: YearMonth)
    requires Valid(ym) && ym.year >= 0
    ensures FormatPeriod(ym) == NatToString(ym.year) + ['-'] + Pad2(ym.month0 + 1)
  {
  }

  lemma PeriodParts(ym: YearMonth)
    requires Valid(ym) && ym.year >= 0
    ensures var ys, ms := NatToString(ym.year), Pad2(ym.month0 + 1);
            && AllDigits(ys) && AllDigits(ms) && ms != []
            && DecimalValue(ys) == ym.year && DecimalValue(ms) == ym.month0 + 1
            && Split(FormatPeriod(ym), '-') == [ys, ms]
  {
    var ys := NatToString(ym.year);
    var ms := Pad2(ym.month0 + 1);
    DecimalOfNat(ym.year);
    Pad2Digits(ym.month0 + 1);
    assert Split(FormatPeriod(ym), '-') == [ys, ms] by {
      NoSepInDigits(ys);
      FormatPeriodText(ym);
      SplitAt(ys, ms, '-');
      SplitNoSep(ms, '-');
      assert [ys] + [ms] == [ys, ms];
    }
  }

  /** The default period text reads back as the month it was made from. */
  lemma FormatParseRoundTrip(ym: YearMonth)
    requires Valid(ym) && ym.year >= 0
    ensures ParseYearMonth(FormatPeriod(ym)) == Some((ym.year, ym.month0 + 1))
  {
    PeriodParts(ym);
    var ys, ms := NatToString(ym.year), Pad2(ym.month0 + 1);
    NumberOfDigits(ys);
    NumberOfDigits(ms);
    var parts := Split(FormatPeriod(ym), '-');
    assert parts[0] == ys && parts[1] == ms;
  }
}
