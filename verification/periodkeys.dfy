/** The period key `getTrendData` derives from a record's date: for the
    `'monthly'` period the year, a dash and the 1-based month padded to two
    digits; for any other period value the year alone. An "Invalid Date"
    renders its year and month as `NaN`. */
module PeriodKeys {
  import opened Text
  import opened Expenses

  const Monthly := "monthly"

  /** `String(date.getFullYear())`. */
  function YearText(d: Date): string
  {
    match d
    case InvalidDate => "NaN"
    case CalendarDate(y, _) => IntToString(y)
  }

  /** `String(date.getMonth() + 1)`. */
  function MonthText(d: Date): string
  {
    match d
    case InvalidDate => "NaN"
    case CalendarDate(_, m) => IntToString(m + 1)
  }

  /** The bucket key of a date: the year text, and for monthly keys a dash
      and the two-digit 1-based month; an invalid date gives `NaN` parts. */
  function PeriodKey(period: string, d: Date): (k: string)
    ensures |k| >= |YearText(d)| && k[..|YearText(d)|] == YearText(d)
    ensures period != Monthly ==> |k| == |YearText(d)|
    ensures period == Monthly && d.CalendarDate? ==>
      var n := |YearText(d)|;
      |k| == n + 3 && k[n] == '-' && IsDigits(k[n + 1..]) && ValueOf(k[n + 1..]) == d.monthIndex + 1
    ensures d.InvalidDate? ==> k == if period == Monthly then "NaN-NaN" else "NaN"
  {
    if period == Monthly then
      var y, mm := YearText(d), PadStart(MonthText(d), 2, '0');
      SplitThree(y, "-", mm);
      if d.CalendarDate? then
        MonthField(d);
        y + "-" + mm
      else
        assert mm == "NaN";
        y + "-" + mm
    else YearText(d)
  }

  /** The grouping key of a record for the given period. */
  function KeyFor(period: string): Expense -> string
  {
    (e: Expense) => PeriodKey(period, e.date)
  }

  /** A year that `getFullYear` renders with exactly four digits. */
  predicate FourDigitYear(d: Date)
  {
    d.CalendarDate? && 1000 <= d.year <= 9999
  }

  /** Whether two dates fall in the same period: the same year and month
      for monthly keys, the same year otherwise; every invalid date falls
      in the single invalid period. */
  predicate SamePeriod(period: string, d1: Date, d2: Date)
  {
    if d1.InvalidDate? || d2.InvalidDate? then d1.InvalidDate? && d2.InvalidDate?
    else if period == Monthly then d1 == d2
    else d1.year == d2.year
  }

  /** `d1` lies in an earlier period than `d2`. */
  predicate EarlierPeriod(period: string, d1: Date, d2: Date)
    requires d1.CalendarDate? && d2.CalendarDate?
  {
    if period == Monthly then
      d1.year < d2.year || (d1.year == d2.year && d1.monthIndex < d2.monthIndex)
    else d1.year < d2.year
  }

  /** The padded month is two digits denoting the 1-based month. */
  lemma MonthDigits(m: int)
    requires 0 <= m < 12
    ensures var t := PadStart(IntToString(m + 1), 2, '0');
      |t| == 2 && IsDigits(t) && ValueOf(t) == m + 1
  {
    var n := m + 1;
    assert IntToString(n) == DecimalDigits(n);
    if n < 10 {
      SingleDigit(n);
      var x := DigitChar(n);
      assert PadStart([x], 1, '0') == [x];
      assert PadStart([x], 2, '0') == ['0', x];
      ValueOfTwo('0', x);
    } else {
      TwoDigits(n);
      ValueOfTwo(DigitChar(n / 10), DigitChar(n % 10));
    }
  }

  /** The padded month text of a calendar date. */
  lemma MonthField(d: Date)
    requires d.CalendarDate?
    ensures var t := PadStart(MonthText(d), 2, '0');
      |t| == 2 && IsDigits(t) && ValueOf(t) == d.monthIndex + 1
  {
    var m: int := d.monthIndex;
    assert MonthText(d) == IntToString(m + 1);
    MonthDigits(m);
  }

  lemma FourDigits(y: int)
    requires 1000 <= y <= 9999
    ensures |IntToString(y)| == 4
  {
    var a, b, c := y / 10, y / 10 / 10, y / 10 / 10 / 10;
    assert 1 <= c <= 9 && 10 <= b <= 99 && 100 <= a <= 999;
    assert |DecimalDigits(c)| == 1;
    assert |DecimalDigits(b)| == |DecimalDigits(c)| + 1;
    assert |DecimalDigits(a)| == |DecimalDigits(b)| + 1;
    assert |DecimalDigits(y)| == |DecimalDigits(a)| + 1;
  }

  /** The parts of `a + b + c` can be cut back out of it. */
  lemma SplitThree(a: string, b: string, c: string)
    ensures (a + b + c)[..|a|] == a
    ensures (a + b + c)[|a|..|a| + |b|] == b
    ensures (a + b + c)[|a| + |b|..] == c
  {
  }

  /** A monthly key of a four-digit year is `YYYY-MM`: seven characters,
      a dash at index 4 and digits elsewhere. */
  lemma MonthlyKeyShape(d: Date)
    requires FourDigitYear(d)
    ensures var k := PeriodKey(Monthly, d);
      && |k| == 7 && k[4] == '-'
      && IsDigits(k[..4]) && IsDigits(k[5..])
      && ValueOf(k[..4]) == d.year && ValueOf(k[5..]) == d.monthIndex + 1
  {
    var y, mm := IntToString(d.year), PadStart(MonthText(d), 2, '0');
    FourDigits(d.year);
    MonthField(d);
    SplitThree(y, "-", mm);
    var k := y + "-" + mm;
    assert k == PeriodKey(Monthly, d);
    assert k[..4] == y && k[5..] == mm;
    assert k[4] == k[4..5][0];
  }

  /** Any other period value gives the year alone. */
  lemma YearlyKeyShape(period: string, d: Date)
    requires period != Monthly && FourDigitYear(d)
    ensures var k := PeriodKey(period, d);
      |k| == 4 && IsDigits(k) && ValueOf(k) == d.year
  {
    FourDigits(d.year);
  }

  /** Two records share a bucket exactly when their dates fall in the same
      period: keys are equal if and only if the periods are. */
  lemma {:induction false} PeriodKeyInjective(period: string, d1: Date, d2: Date)
    ensures PeriodKey(period, d1) == PeriodKey(period, d2) <==> SamePeriod(period, d1, d2)
  {
    var k1, k2 := PeriodKey(period, d1), PeriodKey(period, d2);
    if k1 == k2 {
      if period == Monthly {
        MonthlyKeyInjective(d1, d2);
      } else {
        YearTextInjective(d1, d2);
      }
    }
  }

  lemma YearTextInjective(d1: Date, d2: Date)
    requires YearText(d1) == YearText(d2)
    ensures d1.InvalidDate? <==> d2.InvalidDate?
    ensures d1.CalendarDate? ==> d1.year == d2.year
  {
    if d1.CalendarDate? && d2.CalendarDate? {
      IntToStringInjective(d1.year, d2.year);
    }
  }

  lemma MonthlyKeyInjective(d1: Date, d2: Date)
    requires PeriodKey(Monthly, d1) == PeriodKey(Monthly, d2)
    ensures d1 == d2
  {
    if d1.CalendarDate? && d2.CalendarDate? {
      CalendarMonthlyKeyInjective(d1, d2);
    } else if d1.CalendarDate? {
      CalendarMonthlyKeyEndsInDigit(d1);
    } else if d2.CalendarDate? {
      CalendarMonthlyKeyEndsInDigit(d2);
    }
  }

  /** A valid date's monthly key ends in a digit, unlike `"NaN-NaN"`. */
  lemma CalendarMonthlyKeyEndsInDigit(d: Date)
    requires d.CalendarDate?
    ensures PeriodKey(Monthly, d) != PeriodKey(Monthly, InvalidDate)
  {
    MonthlyKeyLastDigit(d);
    InvalidMonthlyKey();
  }

  lemma MonthlyKeyLastDigit(d: Date)
    requires d.CalendarDate?
    ensures var k := PeriodKey(Monthly, d); |k| > 0 && IsDigit(k[|k| - 1])
  {
    var mm := PadStart(MonthText(d), 2, '0');
    MonthField(d);
    LastOfJoin(YearText(d), mm);
  }

  lemma InvalidMonthlyKey()
    ensures PeriodKey(Monthly, InvalidDate) == "NaN-NaN"
  {
    assert PadStart("NaN", 2, '0') == "NaN";
  }

  /** The last character of `y + "-" + m` is the last character of `m`. */
  lemma LastOfJoin(y: string, m: string)
    requires |m| > 0
    ensures var k := y + "-" + m; k[|k| - 1] == m[|m| - 1]
  {
  }

  lemma CalendarMonthlyKeyInjective(d1: Date, d2: Date)
    requires d1.CalendarDate? && d2.CalendarDate?
    requires PeriodKey(Monthly, d1) == PeriodKey(Monthly, d2)
    ensures d1 == d2
  {
    var m1, m2 := PadStart(MonthText(d1), 2, '0'), PadStart(MonthText(d2), 2, '0');
    MonthField(d1);
    MonthField(d2);
    JoinInjective(YearText(d1), m1, YearText(d2), m2);
    IntToStringInjective(d1.year, d2.year);
  }

  /** With equally long month parts, a joined key splits back uniquely. */
  lemma JoinInjective(y1: string, m1: string, y2: string, m2: string)
    requires |m1| == |m2|
    requires y1 + "-" + m1 == y2 + "-" + m2
    ensures y1 == y2 && m1 == m2
  {
    SplitThree(y1, "-", m1);
    SplitThree(y2, "-", m2);
  }

  /** For four-digit years, sorting keys lexicographically sorts periods
      chronologically. */
  lemma {:induction false} PeriodKeyOrder(period: string, d1: Date, d2: Date)
    requires FourDigitYear(d1) && FourDigitYear(d2)
    ensures LexLess(PeriodKey(period, d1), PeriodKey(period, d2)) <==> EarlierPeriod(period, d1, d2)
  {
    var y1, y2 := IntToString(d1.year), IntToString(d2.year);
    FourDigits(d1.year);
    FourDigits(d2.year);
    DigitsOrder(y1, y2);
    if period == Monthly {
      var m1, m2 := PadStart(MonthText(d1), 2, '0'), PadStart(MonthText(d2), 2, '0');
      MonthField(d1);
      MonthField(d2);
      DigitsOrder(m1, m2);
      LexLessAppend(y1 + "-", m1, y2 + "-", m2);
      LexLessAppend(y1, "-", y2, "-");
      LexLessIrreflexive("-");
      if y1 + "-" == y2 + "-" {
        assert y1 == (y1 + "-")[..4] && y2 == (y2 + "-")[..4];
      }
      IntToStringInjective(d1.year, d2.year);
    }
  }
}
