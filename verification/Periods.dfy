/** Accounting periods: `crate/common/src/domain.rs` and `fn::current_period_for`. */
module Periods {
  import opened Text
  import opened Calendar

  datatype Cadence = Weekly | Monthly | Yearly

  /** The stored text of a cadence. */
  function CadenceText(c: Cadence): string {
    match c
    case Weekly => "weekly"
    case Monthly => "monthly"
    case Yearly => "yearly"
  }

  function ParseCadence(s: string): (r: Option<Cadence>)
    ensures forall c :: r == Some(c) <==> s == CadenceText(c)
  {
    if s == "weekly" then Some(Weekly)
    else if s == "monthly" then Some(Monthly)
    else if s == "yearly" then Some(Yearly)
    else None
  }

  datatype Period =
    | Week(year: int, week: int)
    | Month(year: int, month: int)
    | Year(year: int)
  {
    function Cadence(): Cadence {
      match this
      case Week(_, _) => Weekly
      case Month(_, _) => Monthly
      case Year(_) => Yearly
    }

    /** The number below the year; yearly periods have none. */
    function Part(): int {
      match this
      case Week(_, w) => w
      case Month(_, m) => m
      case Year(_) => 0
    }

    /** What the checked constructors `weekly`, `monthly` and `yearly` let through. */
    predicate WellFormed() {
      match this
      case Week(_, w) => 1 <= w <= 53
      case Month(_, m) => 1 <= m <= 12
      case Year(_) => true
    }

    /** A well-formed period of the years that print as four digits. */
    predicate Printable() {
      WellFormed() && 0 <= year <= 9999
    }

    /** Chronological order, for periods of one cadence. */
    predicate Before(that: Period) {
      year < that.year || (year == that.year && Part() < that.Part())
    }
  }

  // ---------- Display ----------

  /** `{year:04}`: the sign of a negative year counts towards the width. */
  function YearText(y: int): string {
    if y >= 0 then Padded(y, 4) else "-" + Padded(-y, 3)
  }

  function Print(p: Period): string
    requires p.WellFormed()
  {
    match p
    case Week(y, w) => YearText(y) + "-W" + Padded(w, 2)
    case Month(y, m) => YearText(y) + "-" + Padded(m, 2)
    case Year(y) => YearText(y)
  }

  // ---------- FromStr ----------

  function CheckedWeek(y: int, w: int): Option<Period> {
    if 1 <= w <= 53 then Some(Week(y, w)) else None
  }

  function CheckedMonth(y: int, m: int): Option<Period> {
    if 1 <= m <= 12 then Some(Month(y, m)) else None
  }

  function Parse(s: string): (r: Option<Period>)
    ensures r.Some? ==> r.value.WellFormed()
  {
    if |s| == 4 then
      match ParseInt(s, I32_MIN, I32_MAX)
      case None => None
      case Some(y) => Some(Year(y))
    else
      match SplitAt(s, '-')
      case None => None
      case Some((y, rest)) =>
        match ParseInt(y, I32_MIN, I32_MAX)
        case None => None
        case Some(year) =>
          if rest != "" && rest[0] == 'W' then
            match ParseInt(rest[1..], 0, 255)
            case None => None
            case Some(w) => CheckedWeek(year, w)
          else
            match ParseInt(rest, 0, 255)
            case None => None
            case Some(m) => CheckedMonth(year, m)
  }

  // ---------- the schema patterns ----------

  /** `^[0-9]{4}-W(0[1-9]|[1-4][0-9]|5[0-3])$` */
  predicate MatchesWeek(s: string) {
    |s| == 8 && AllDigits(s[..4]) && s[4] == '-' && s[5] == 'W'
    && ((s[6] == '0' && '1' <= s[7] <= '9')
        || ('1' <= s[6] <= '4' && IsDigit(s[7]))
        || (s[6] == '5' && '0' <= s[7] <= '3'))
  }

  /** `^[0-9]{4}-(0[1-9]|1[0-2])$` */
  predicate MatchesMonth(s: string) {
    |s| == 7 && AllDigits(s[..4]) && s[4] == '-'
    && ((s[5] == '0' && '1' <= s[6] <= '9') || (s[5] == '1' && '0' <= s[6] <= '2'))
  }

  /** `^[0-9]{4}$` */
  predicate MatchesYear(s: string) {
    |s| == 4 && AllDigits(s)
  }

  predicate MatchesOwnPattern(s: string, c: Cadence) {
    match c
    case Weekly => MatchesWeek(s)
    case Monthly => MatchesMonth(s)
    case Yearly => MatchesYear(s)
  }

  /** The ASSERT on `contribution.period`: any of the three shapes. */
  predicate MatchesSchema(s: string) {
    MatchesWeek(s) || MatchesMonth(s) || MatchesYear(s)
  }

  // ---------- printing facts ----------

  lemma PrintShape(p: Period)
    requires p.Printable()
    ensures var y := Padded(p.year, 4);
            |y| == 4 && AllDigits(y) && Print(p)[..4] == y
            && (p.Week? ==>
                  var part := Padded(p.week, 2);
                  |part| == 2 && Print(p) == y + ("-W" + part) && Print(p)[6..] == part)
            && (p.Month? ==>
                  var part := Padded(p.month, 2);
                  |part| == 2 && Print(p) == y + ("-" + part) && Print(p)[5..] == part)
            && (p.Year? ==> Print(p) == y)
  {
    PaddedWidth(p.year, 4);
    if !p.Year? {
      PaddedWidth(p.Part(), 2);
    }
    assert p.Week? ==> Print(p) == Padded(p.year, 4) + ("-W" + Padded(p.week, 2));
    assert p.Month? ==> Print(p) == Padded(p.year, 4) + ("-" + Padded(p.month, 2));
  }

  /** Two decimal digits and the number they denote. */
  lemma TwoDigits(d: string)
    requires |d| == 2 && AllDigits(d)
    ensures Value(d) == 10 * DigitValue(d[0]) + DigitValue(d[1])
  {
    assert d[..1][..0] == "";
    assert Value(d[..1]) == DigitValue(d[0]);
  }

  /** What parsing says of a week text with a four-digit year. */
  lemma WeekTextParsed(y: string, d: string)
    requires |y| == 4 && AllDigits(y) && |d| == 2 && AllDigits(d)
    ensures Parse(y + ("-W" + d)) == CheckedWeek(Value(y), Value(d))
  {
    var s, rest := y + ("-W" + d), "W" + d;
    assert s == y + ['-'] + rest && |s| == 8;
    DigitsLackDash(y);
    SplitAtFirst(y, '-', rest);
    SmallValues(y);
    SmallValues(d);
    ParseDigits(y, I32_MIN, I32_MAX);
    ParseDigits(d, 0, 255);
    assert rest[0] == 'W' && rest[1..] == d;
  }

  lemma DigitsLackDash(y: string)
    requires AllDigits(y)
    ensures '-' !in y
  {
    assert forall i :: 0 <= i < |y| ==> IsDigit(y[i]);
  }

  /** What the patterns say of it. */
  lemma WeekTextMatched(y: string, d: string)
    requires |y| == 4 && AllDigits(y) && |d| == 2 && AllDigits(d)
    ensures var s := y + ("-W" + d);
            (MatchesWeek(s) <==> 1 <= Value(d) <= 53) && !MatchesMonth(s) && !MatchesYear(s)
  {
    var s := y + ("-W" + d);
    assert s[..4] == y && s[4] == '-' && s[5] == 'W' && s[6] == d[0] && s[7] == d[1];
    assert IsDigit(d[0]) && IsDigit(d[1]);
    TwoDigits(d);
  }

  lemma WeekText(y: string, d: string)
    requires |y| == 4 && AllDigits(y) && |d| == 2 && AllDigits(d)
    ensures var s := y + ("-W" + d);
            Parse(s) == CheckedWeek(Value(y), Value(d))
            && (MatchesWeek(s) <==> 1 <= Value(d) <= 53) && !MatchesMonth(s) && !MatchesYear(s)
  {
    WeekTextParsed(y, d);
    WeekTextMatched(y, d);
  }

  lemma MonthTextParsed(y: string, d: string)
    requires |y| == 4 && AllDigits(y) && |d| == 2 && AllDigits(d)
    ensures Parse(y + ("-" + d)) == CheckedMonth(Value(y), Value(d))
  {
    var s := y + ("-" + d);
    assert s == y + ['-'] + d && |s| == 7;
    DigitsLackDash(y);
    SplitAtFirst(y, '-', d);
    SmallValues(y);
    SmallValues(d);
    ParseDigits(y, I32_MIN, I32_MAX);
    ParseDigits(d, 0, 255);
    assert IsDigit(d[0]);
  }

  lemma MonthTextMatched(y: string, d: string)
    requires |y| == 4 && AllDigits(y) && |d| == 2 && AllDigits(d)
    ensures var s := y + ("-" + d);
            (MatchesMonth(s) <==> 1 <= Value(d) <= 12) && !MatchesWeek(s) && !MatchesYear(s)
  {
    var s := y + ("-" + d);
    assert s[..4] == y && s[4] == '-' && s[5] == d[0] && s[6] == d[1];
    assert IsDigit(d[0]) && IsDigit(d[1]);
    TwoDigits(d);
  }

  lemma MonthText(y: string, d: string)
    requires |y| == 4 && AllDigits(y) && |d| == 2 && AllDigits(d)
    ensures var s := y + ("-" + d);
            Parse(s) == CheckedMonth(Value(y), Value(d))
            && (MatchesMonth(s) <==> 1 <= Value(d) <= 12) && !MatchesWeek(s) && !MatchesYear(s)
  {
    MonthTextParsed(y, d);
    MonthTextMatched(y, d);
  }

  lemma FourDigitYearText(y: string)
    requires |y| == 4 && AllDigits(y)
    ensures Parse(y) == Some(Year(Value(y))) && 0 <= Value(y) <= 9999 && Padded(Value(y), 4) == y
  {
    SmallValues(y);
    ParseDigits(y, I32_MIN, I32_MAX);
    PaddedOfValue(y);
  }

  /** Month and week texts parse exactly if the number is one of a month or week; there is no month 13, no week 54. */
  lemma TwoDigitParts(y: string, d: string)
    requires |y| == 4 && AllDigits(y) && |d| == 2 && AllDigits(d)
    ensures Parse(y + ("-" + d)) == if 1 <= Value(d) <= 12 then Some(Month(Value(y), Value(d))) else None
    ensures Parse(y + ("-W" + d)) == if 1 <= Value(d) <= 53 then Some(Week(Value(y), Value(d))) else None
  {
    MonthTextParsed(y, d);
    WeekTextParsed(y, d);
  }

  /** Parsing undoes printing, for the years that print as four digits. */
  lemma ParsePrint(p: Period)
    requires p.Printable()
    ensures Parse(Print(p)) == Some(p)
  {
    PrintShape(p);
    var y := Padded(p.year, 4);
    match p
    case Year(_) => FourDigitYearText(y);
    case Week(_, w) => WeekText(y, Padded(w, 2));
    case Month(_, m) => MonthText(y, Padded(m, 2));
  }

  /** The printed text matches the pattern of its own cadence and of no other. */
  lemma PrintMatches(p: Period, c: Cadence)
    requires p.Printable()
    ensures MatchesOwnPattern(Print(p), c) <==> c == p.Cadence()
  {
    PrintShape(p);
    var y := Padded(p.year, 4);
    match p
    case Year(_) =>
    case Week(_, w) => WeekText(y, Padded(w, 2));
    case Month(_, m) => MonthText(y, Padded(m, 2));
  }

  lemma MonthPatternIsPrinted(s: string)
    requires MatchesMonth(s)
    ensures Parse(s).Some? && Parse(s).value.Printable() && Print(Parse(s).value) == s
  {
    var y, d := s[..4], s[5..];
    FourDigitYearText(y);
    assert AllDigits(d) && d[0] == s[5] && d[1] == s[6];
    assert s == y + ("-" + d) == y + "-" + d;
    MonthText(y, d);
    PaddedOfValue(d);
  }

  lemma WeekPatternIsPrinted(s: string)
    requires MatchesWeek(s)
    ensures Parse(s).Some? && Parse(s).value.Printable() && Print(Parse(s).value) == s
  {
    var y, d := s[..4], s[6..];
    FourDigitYearText(y);
    assert AllDigits(d) && d[0] == s[6] && d[1] == s[7];
    assert s == y + ("-W" + d) == y + "-W" + d;
    WeekText(y, d);
    PaddedOfValue(d);
  }

  lemma PatternIsPrinted(s: string)
    requires MatchesSchema(s)
    ensures Parse(s).Some? && Parse(s).value.Printable() && Print(Parse(s).value) == s
  {
    if MatchesYear(s) {
      FourDigitYearText(s);
    } else if MatchesMonth(s) {
      MonthPatternIsPrinted(s);
    } else {
      WeekPatternIsPrinted(s);
    }
  }

  /** The schema patterns describe exactly the printed periods: a string matches one
      iff it parses to a printable period that prints back to it. */
  lemma PatternIffCanonical(s: string)
    ensures MatchesSchema(s) <==> Parse(s).Some? && Parse(s).value.Printable() && Print(Parse(s).value) == s
  {
    if MatchesSchema(s) {
      PatternIsPrinted(s);
    } else if Parse(s).Some? && Parse(s).value.Printable() {
      var p := Parse(s).value;
      PrintMatches(p, p.Cadence());
    }
  }

  // ---------- the range of years on which the order holds ----------

  /** Text order is chronological order for the periods of a cadence in the years `lo` to `hi`. */
  ghost predicate OrderKept(c: Cadence, lo: int, hi: int) {
    forall p: Period, q: Period ::
      p.WellFormed() && q.WellFormed() && p.Cadence() == q.Cadence() == c
      && lo <= p.year <= hi && lo <= q.year <= hi
      ==> (Less(Print(p), Print(q)) <==> p.Before(q))
  }

  /** A printed period is its year and, but for yearly ones, a part of two or more digits. */
  function Tail(p: Period): string
    requires p.WellFormed()
  {
    match p
    case Week(_, w) => "-W" + Padded(w, 2)
    case Month(_, m) => "-" + Padded(m, 2)
    case Year(_) => ""
  }

  lemma PrintParts(p: Period)
    requires p.WellFormed()
    ensures Print(p) == YearText(p.year) + Tail(p)
  {
    assert YearText(p.year) + "" == YearText(p.year);
    if p.Week? {
      assert YearText(p.year) + "-W" + Padded(p.week, 2) == YearText(p.year) + ("-W" + Padded(p.week, 2));
    }
  }

  lemma TailOrder(p: Period, q: Period)
    requires p.WellFormed() && q.WellFormed() && p.Cadence() == q.Cadence()
    ensures Less(Tail(p), Tail(q)) <==> p.Part() < q.Part()
  {
    if !p.Year? {
      var d, e := Padded(p.Part(), 2), Padded(q.Part(), 2);
      PaddedWidth(p.Part(), 2);
      PaddedWidth(q.Part(), 2);
      DigitsOrder(d, e);
      var dash := if p.Week? then "-W" else "-";
      LessAppend(dash, dash, d, e);
      LessIrreflexive(dash);
    }
  }

  lemma YearsInOrder(y: int, z: int)
    requires -1 <= y <= 9999 && -1 <= z <= 9999
    ensures |YearText(y)| == |YearText(z)| == 4
    ensures Less(YearText(y), YearText(z)) <==> y < z
    ensures YearText(y) == YearText(z) <==> y == z
  {
    YearTextShape(y);
    YearTextShape(z);
    LessIrreflexive(YearText(y));
    if y >= 0 && z >= 0 {
      DigitsOrder(YearText(y), YearText(z));
    }
  }

  lemma YearTextShape(y: int)
    requires -1 <= y <= 9999
    ensures |YearText(y)| == 4
    ensures if y < 0 then YearText(y)[0] == '-'
            else AllDigits(YearText(y)) && Value(YearText(y)) == y && IsDigit(YearText(y)[0])
  {
    if y < 0 {
      assert |Decimal(1)| == 1;
    } else {
      PaddedWidth(y, 4);
    }
  }

  lemma OrderKeptWithin(c: Cadence, p: Period, q: Period)
    requires p.WellFormed() && q.WellFormed() && p.Cadence() == q.Cadence() == c
    requires -1 <= p.year <= 9999 && -1 <= q.year <= 9999
    ensures Less(Print(p), Print(q)) <==> p.Before(q)
  {
    PrintParts(p);
    PrintParts(q);
    YearsInOrder(p.year, q.year);
    LessAppend(YearText(p.year), YearText(q.year), Tail(p), Tail(q));
    TailOrder(p, q);
  }

  /** Within a cadence chronological order is the lexicographic order of the text. */
  lemma PrintOrder(p: Period, q: Period)
    requires p.Printable() && q.Printable() && p.Cadence() == q.Cadence()
    ensures Less(Print(p), Print(q)) <==> p.Before(q)
  {
    OrderKeptWithin(p.Cadence(), p, q);
  }

  function Sample(c: Cadence, y: int): (p: Period)
    ensures p.WellFormed() && p.Cadence() == c && p.year == y
  {
    match c
    case Weekly => Week(y, 1)
    case Monthly => Month(y, 1)
    case Yearly => Year(y)
  }

  lemma OneMoreDigit(n: nat)
    requires n >= 10
    ensures Decimal(n)[0] == Decimal(n / 10)[0] && |Decimal(n)| == |Decimal(n / 10)| + 1
  {
  }

  lemma FirstDigits()
    ensures YearText(10000)[0] == '1' && YearText(9999)[0] == '9'
  {
    OneMoreDigit(10000);
    OneMoreDigit(1000);
    OneMoreDigit(100);
    OneMoreDigit(10);
    assert Decimal(1) == "1" && Decimal(9) == "9";
    OneMoreDigit(9999);
    OneMoreDigit(999);
    OneMoreDigit(99);
  }

  /** Year 10000 prints below year 9999. */
  lemma FiveDigitsLost(c: Cadence)
    ensures Less(Print(Sample(c, 10000)), Print(Sample(c, 9999)))
  {
    PrintParts(Sample(c, 10000));
    PrintParts(Sample(c, 9999));
    FirstDigits();
  }

  /** Of two years before year 0 the earlier one prints higher. */
  lemma NegativeYearsLost(c: Cadence)
    ensures Less(Print(Sample(c, -1)), Print(Sample(c, -2)))
  {
    PrintParts(Sample(c, -1));
    PrintParts(Sample(c, -2));
    var a, b := YearText(-1), YearText(-2);
    assert Decimal(1) == "1" && Decimal(2) == "2";
    assert Zeros(2) == "00";
    assert a == "-001" && b == "-002";
    LessAppend("-00", "-00", "1", "2");
    LessIrreflexive("-00");
    assert a == "-00" + "1" && b == "-00" + "2";
    LessAppend(a, b, Tail(Sample(c, -1)), Tail(Sample(c, -2)));
  }

  lemma OrderKeptFromMinusOne(c: Cadence, lo: int, hi: int)
    requires -1 <= lo && hi <= 9999
    ensures OrderKept(c, lo, hi)
  {
    forall p: Period, q: Period
      | p.WellFormed() && q.WellFormed() && p.Cadence() == q.Cadence() == c
        && lo <= p.year <= hi && lo <= q.year <= hi
      ensures Less(Print(p), Print(q)) <==> p.Before(q)
    {
      OrderKeptWithin(c, p, q);
    }
  }

  /** One pair of periods in the wrong order. */
  lemma OrderLost(c: Cadence, lo: int, hi: int, y: int, z: int)
    requires lo <= y < z <= hi && Less(Print(Sample(c, z)), Print(Sample(c, y)))
    ensures !OrderKept(c, lo, hi)
  {
    assert !Sample(c, z).Before(Sample(c, y));
  }

  /** Around year 0 the order holds on exactly the years from -1 to 9999, in every cadence. */
  lemma OrderKeptExactlyOn(c: Cadence, lo: int, hi: int)
    requires lo <= 0 <= hi
    ensures OrderKept(c, lo, hi) <==> -1 <= lo && hi <= 9999
  {
    if -1 <= lo && hi <= 9999 {
      OrderKeptFromMinusOne(c, lo, hi);
    } else if hi > 9999 {
      FiveDigitsLost(c);
      OrderLost(c, lo, hi, 9999, 10000);
    } else {
      NegativeYearsLost(c);
      OrderLost(c, lo, hi, -2, -1);
    }
  }

  // ---------- the current period ----------

  /** `Period::current_in`, for a local calendar day. */
  function PeriodAt(c: Cadence, day: int): (p: Period)
    ensures p.WellFormed() && p.Cadence() == c
  {
    match c
    case Weekly => Week(IsoYear(day), IsoWeek(day))
    case Monthly => Month(YearOf(day), MonthOf(day))
    case Yearly => Year(YearOf(day))
  }

  /** The first day of the period that holds `day`. */
  function PeriodStart(c: Cadence, day: int): int {
    match c
    case Weekly => Monday(day)
    case Monthly => YearStart(YearOf(day)) + MonthStart(MonthOf(day), IsLeap(YearOf(day)))
    case Yearly => YearStart(YearOf(day))
  }

  /** Day `d`'s period is earlier than day `e`'s exactly when `d` lies before the first day of `e`'s. */
  lemma PeriodBoundary(c: Cadence, d: int, e: int)
    ensures PeriodAt(c, d).Before(PeriodAt(c, e)) <==> d < PeriodStart(c, e)
    ensures PeriodStart(c, e) <= e
  {
    match c
    case Yearly =>
      YearUnique(d, YearOf(e));
    case Monthly =>
      MonthBoundary(d, e);
    case Weekly =>
      MondayOrder(d, e);
      YearUnique(Monday(d) + 3, IsoYear(e));
      YearUnique(Monday(e) + 3, IsoYear(d));
      if IsoYear(d) == IsoYear(e) {
        WeekOrder(d, e);
      }
  }

  lemma MonthBoundary(d: int, e: int)
    ensures PeriodAt(Monthly, d).Before(PeriodAt(Monthly, e)) <==> d < PeriodStart(Monthly, e)
    ensures PeriodStart(Monthly, e) <= e
  {
    var y, z := YearOf(d), YearOf(e);
    YearUnique(d, z);
    if y == z {
      MonthInYear(MonthOf(d), MonthOf(e), d - YearStart(y), IsLeap(y));
    } else if y < z {
      MonthStartMonotoneFromOne(MonthOf(e), IsLeap(z));
    } else {
      YearUnique(e, y);
      assert e < YearStart(y) <= d;
    }
  }

  lemma MonthStartMonotoneFromOne(n: int, leap: bool)
    requires 1 <= n <= 12
    ensures MonthStart(n, leap) >= 0
  {
  }

  lemma MonthInYear(m: int, n: int, dayOfYear: int, leap: bool)
    requires 1 <= m <= 12 && 1 <= n <= 12
    requires MonthStart(m, leap) <= dayOfYear < MonthStart(m + 1, leap)
    ensures m < n <==> dayOfYear < MonthStart(n, leap)
  {
    if m + 1 < n {
      MonthStartMonotone(m + 1, n, leap);
    } else if n < m {
      MonthStartMonotone(n, m, leap);
    }
  }

  lemma WithinYear(m: int, leap: bool)
    requires 1 <= m <= 12
    ensures 0 <= MonthStart(m, leap) && MonthStart(m + 1, leap) <= MonthStart(13, leap)
  {
    if m > 1 { MonthStartMonotone(1, m, leap); }
    if m < 12 { MonthStartMonotone(m + 1, 13, leap); }
  }

  lemma MonthHolds(y: int, m: int, dayOfYear: int)
    requires 1 <= m <= 12 && MonthStart(m, IsLeap(y)) <= dayOfYear < MonthStart(m + 1, IsLeap(y))
    ensures YearOf(YearStart(y) + dayOfYear) == y && MonthOf(YearStart(y) + dayOfYear) == m
  {
    var day := YearStart(y) + dayOfYear;
    WithinYear(m, IsLeap(y));
    YearLength(y);
    YearUnique(day, y);
    MonthInYear(MonthOf(day), m, dayOfYear, IsLeap(y));
    MonthInYear(m, MonthOf(day), dayOfYear, IsLeap(y));
  }

  /** Day `k` of month `m` of year `y` falls in that month and year, the months having the lengths they have. */
  lemma DayInMonth(y: int, m: int, k: int, dayOfYear: int)
    requires 1 <= m <= 12 && 1 <= k <= MonthLength(m, IsLeap(y)) && dayOfYear == DaysBefore(m, IsLeap(y)) + k - 1
    ensures PeriodAt(Monthly, YearStart(y) + dayOfYear) == Month(y, m)
    ensures PeriodAt(Yearly, YearStart(y) + dayOfYear) == Year(y)
  {
    TableHolds(m, k, IsLeap(y));
    DayOfMonth(y, m, dayOfYear);
  }

  lemma TableHolds(m: int, k: int, leap: bool)
    requires 1 <= m <= 12 && 1 <= k <= MonthLength(m, leap)
    ensures MonthStart(m, leap) <= DaysBefore(m, leap) + k - 1 < MonthStart(m + 1, leap)
  {
    MonthTable(m, leap);
  }

  lemma DayOfMonth(y: int, m: int, dayOfYear: int)
    requires 1 <= m <= 12 && MonthStart(m, IsLeap(y)) <= dayOfYear < MonthStart(m + 1, IsLeap(y))
    ensures PeriodAt(Monthly, YearStart(y) + dayOfYear) == Month(y, m)
    ensures PeriodAt(Yearly, YearStart(y) + dayOfYear) == Year(y)
  {
    MonthHolds(y, m, dayOfYear);
    PeriodParts(YearStart(y) + dayOfYear, y, m);
  }

  lemma PeriodParts(day: int, y: int, m: int)
    requires YearOf(day) == y && MonthOf(day) == m
    ensures PeriodAt(Monthly, day) == Month(y, m) && PeriodAt(Yearly, day) == Year(y)
  {
  }

  /** Week 1 of a year starts on the Monday `first` nearest to the first of January, Mondays being counted from
      29 December 1969; day `k` of week `w`, which is one of the year while its Thursday is, falls in that week. */
  lemma DayInWeek(y: int, first: int, w: int, k: int)
    requires YearStart(y) - 3 <= first <= YearStart(y) + 3 && (first - 719525) % 7 == 0
    requires 1 <= w && 0 <= k < 7 && first + 7 * (w - 1) + 3 < YearStart(y + 1)
    ensures PeriodAt(Weekly, first + 7 * (w - 1) + k) == Week(y, w)
  {
    var monday := first + 7 * (w - 1);
    MondayCounted(first, w, k);
    ThursdayIn(y, first, w);
    WeekParts(monday + k, monday, y, w);
  }

  lemma MondayCounted(first: int, w: int, k: int)
    requires (first - 719525) % 7 == 0 && 0 <= k < 7
    ensures Monday(first + 7 * (w - 1) + k) == first + 7 * (w - 1)
  {
    var n := (first - 719525) / 7;
    assert first - 719525 == 7 * n;
    QuotientIs(first + 7 * (w - 1) + k - 2, 7, n + 102789 + (w - 1), k);
  }

  lemma ThursdayIn(y: int, first: int, w: int)
    requires YearStart(y) - 3 <= first <= YearStart(y) + 3
    requires 1 <= w && first + 7 * (w - 1) + 3 < YearStart(y + 1)
    ensures var thursday := first + 7 * (w - 1) + 3;
            YearOf(thursday) == y && (thursday - YearStart(y)) / 7 == w - 1
  {
    YearUnique(first + 7 * (w - 1) + 3, y);
    QuotientIs(first + 7 * (w - 1) + 3 - YearStart(y), 7, w - 1, first + 3 - YearStart(y));
  }

  lemma WeekParts(day: int, monday: int, y: int, w: int)
    requires Monday(day) == monday && YearOf(monday + 3) == y && (monday + 3 - YearStart(y)) / 7 == w - 1
    ensures PeriodAt(Weekly, day) == Week(y, w)
  {
  }

  /** As the clock advances no cadence ever moves to an earlier period. */
  lemma PeriodMonotone(c: Cadence, d: int, e: int)
    requires d <= e
    ensures !PeriodAt(c, e).Before(PeriodAt(c, d))
  {
    PeriodBoundary(c, e, d);
  }

  /** Days whose calendar year and week-year both print as four digits:
      0000-01-03, the first Monday, up to 9999-12-31. */
  predicate PrintableDay(day: int) {
    2 <= day < YearStart(10000)
  }

  lemma FourDigitYear(day: int)
    requires 0 <= day < YearStart(10000)
    ensures 0 <= YearOf(day) <= 9999
  {
    YearUnique(day, 0);
    YearUnique(day, 10000);
  }

  /** The Thursday of a printable day's week is in the same range of years. */
  lemma ThursdayInRange(day: int)
    requires PrintableDay(day)
    ensures 0 <= Monday(day) + 3 < YearStart(10000)
  {
    assert YearStart(10000) == 3652425;
    MondayResidue(day);
    assert Monday(day) != 3652422 && Monday(day) != 3652423 && Monday(day) != 3652424;
  }

  lemma PrintableDays(c: Cadence, day: int)
    requires PrintableDay(day)
    ensures PeriodAt(c, day).Printable()
  {
    FourDigitYear(day);
    ThursdayInRange(day);
    FourDigitYear(Monday(day) + 3);
  }

  lemma UnprintableWeek(day: int)
    requires 0 <= day < 2
    ensures Monday(day) + 3 < 0
  {
    MondayResidue(day);
  }

  /** They are exactly the days whose periods all print with four digits. */
  lemma PrintableExactly(day: int)
    ensures PrintableDay(day) <==> forall c :: PeriodAt(c, day).Printable()
  {
    if PrintableDay(day) {
      forall c ensures PeriodAt(c, day).Printable() {
        PrintableDays(c, day);
      }
    } else {
      YearUnique(day, 0);
      YearUnique(day, 10000);
      if 0 <= day < 2 {
        UnprintableWeek(day);
        YearUnique(Monday(day) + 3, 0);
        assert !PeriodAt(Weekly, day).Printable();
      } else {
        assert !PeriodAt(Yearly, day).Printable();
      }
    }
  }

  /** The text of the current period in the cadence named by `cadence`; as in
      `fn::current_period_for`, every other name counts as monthly. */
  function CurrentPeriodFor(cadence: string, instant: int): string {
    Print(PeriodAt(LockCadence(cadence), DayOf(instant)))
  }

  function LockCadence(cadence: string): Cadence {
    if cadence == "weekly" then Weekly
    else if cadence == "yearly" then Yearly
    else Monthly
  }

  /** The reading of a clock in a zone `offset` seconds east of UTC. */
  function LocalInstant(instant: int, offset: int): int {
    instant + offset
  }

  predicate PrintableInstant(instant: int) {
    PrintableDay(DayOf(instant))
  }

  lemma DayMonotone(a: int, b: int)
    requires a <= b
    ensures DayOf(a) <= DayOf(b)
  {
  }

  /** The printed current period never decreases lexicographically. */
  lemma CurrentPeriodMonotone(cadence: string, a: int, b: int)
    requires a <= b && PrintableInstant(a) && PrintableInstant(b)
    ensures AtMost(CurrentPeriodFor(cadence, a), CurrentPeriodFor(cadence, b))
  {
    var c := LockCadence(cadence);
    DayMonotone(a, b);
    PeriodMonotone(c, DayOf(a), DayOf(b));
    PrintableDays(c, DayOf(a));
    PrintableDays(c, DayOf(b));
    PrintOrder(PeriodAt(c, DayOf(b)), PeriodAt(c, DayOf(a)));
    LessTotal(CurrentPeriodFor(cadence, a), CurrentPeriodFor(cadence, b));
  }

  /** The instant at which the UTC period that holds `instant` began. */
  function PeriodOpened(cadence: string, instant: int): int {
    PeriodStart(LockCadence(cadence), DayOf(instant)) * SECONDS_PER_DAY
  }

  /** A zone `offset` seconds east of UTC still lives in an older period: the UTC period began
      more recently than the zone lags behind. */
  predicate Lags(cadence: string, instant: int, offset: int) {
    instant - PeriodOpened(cadence, instant) < -offset
  }

  /** `Lags` says exactly when the local period is older than the UTC one. */
  lemma LocalPeriodLags(cadence: string, instant: int, offset: int)
    requires PrintableInstant(instant) && PrintableInstant(LocalInstant(instant, offset))
    ensures Less(CurrentPeriodFor(cadence, LocalInstant(instant, offset)), CurrentPeriodFor(cadence, instant))
            <==> Lags(cadence, instant, offset)
  {
    var c := LockCadence(cadence);
    var local, utc := DayOf(LocalInstant(instant, offset)), DayOf(instant);
    PrintableDays(c, local);
    PrintableDays(c, utc);
    PrintOrder(PeriodAt(c, local), PeriodAt(c, utc));
    PeriodBoundary(c, local, utc);
    var s := PeriodStart(c, utc);
    assert local < s <==> instant + offset < s * SECONDS_PER_DAY;
  }

  /** A zone at or east of UTC never lags. */
  lemma EastNeverLags(cadence: string, instant: int, offset: int)
    requires offset >= 0
    ensures !Lags(cadence, instant, offset)
  {
    PeriodBoundary(LockCadence(cadence), DayOf(instant), DayOf(instant));
  }

  /** A zone west of UTC does lag at some instant: the one at which any UTC period opens. */
  lemma WestLagsAtOpening(cadence: string, instant: int, offset: int)
    requires offset < 0
    ensures Lags(cadence, PeriodOpened(cadence, instant), offset)
  {
    var c := LockCadence(cadence);
    var e := DayOf(instant);
    var s := PeriodStart(c, e);
    PeriodBoundary(c, s, e);
    PeriodBoundary(c, e, s);
    PeriodBoundary(c, s, s);
    assert DayOf(s * SECONDS_PER_DAY) == s;
    if PeriodStart(c, s) < s {
      var d := PeriodStart(c, s);
      PeriodBoundary(c, d, s);
      PeriodBoundary(c, d, e);
      PeriodBoundary(c, s, d);
    }
  }

  // ---------- one instant, in full ----------

  lemma PaddedIs(s: string, n: nat)
    requires AllDigits(s) && (|s| == 2 || |s| == 4) && Value(s) == n
    ensures Padded(n, |s|) == s
  {
    PaddedOfValue(s);
  }

  /** Four digits and the number they denote. */
  lemma FourDigits(s: string)
    requires |s| == 4 && AllDigits(s)
    ensures Value(s) == 1000 * DigitValue(s[0]) + 100 * DigitValue(s[1]) + 10 * DigitValue(s[2]) + DigitValue(s[3])
  {
    TwoDigits(s[..2]);
    assert s[..3][..2] == s[..2];
    assert Value(s[..3]) == 10 * Value(s[..2]) + DigitValue(s[2]);
  }

  lemma EpochDigits()
    ensures Padded(1970, 4) == "1970" && Padded(1, 2) == "01"
  {
    FourDigits("1970");
    PaddedIs("1970", 1970);
    TwoDigits("01");
    PaddedIs("01", 1);
  }

  lemma EpochDay()
    ensures YearStart(1970) == 719528 && YearStart(1971) == 719893 && DayOf(62167219200) == 719528
  {
  }

  lemma EpochMonth()
    ensures PeriodAt(Monthly, 719528) == Month(1970, 1) && PeriodAt(Yearly, 719528) == Year(1970)
  {
    EpochDay();
    assert MonthStart(1, IsLeap(1970)) == 0 && MonthStart(2, IsLeap(1970)) == 31;
    MonthHolds(1970, 1, 0);
    PeriodParts(719528, 1970, 1);
  }

  lemma EpochWeek()
    ensures PeriodAt(Weekly, 719528) == Week(1970, 1)
  {
    EpochDay();
    DayInWeek(1970, 719525, 1, 3);
  }

  lemma EpochPrinted()
    ensures Print(Week(1970, 1)) == "1970-W01" && Print(Month(1970, 1)) == "1970-01" && Print(Year(1970)) == "1970"
  {
    EpochDigits();
  }

  lemma PeriodOfDay(cadence: string, instant: int, c: Cadence, day: int)
    requires LockCadence(cadence) == c && DayOf(instant) == day
    ensures CurrentPeriodFor(cadence, instant) == Print(PeriodAt(c, day))
  {
  }

  /** The Unix epoch, 62167219200 seconds after day 0, in every cadence; an unknown name counts as monthly. */
  lemma EpochPeriods(other: string)
    requires other != "weekly" && other != "yearly"
    ensures CurrentPeriodFor("weekly", 62167219200) == "1970-W01"
    ensures CurrentPeriodFor("yearly", 62167219200) == "1970"
    ensures CurrentPeriodFor(other, 62167219200) == "1970-01"
  {
    EpochDay();
    EpochMonth();
    EpochWeek();
    EpochPrinted();
    PeriodOfDay("weekly", 62167219200, Weekly, 719528);
    PeriodOfDay("yearly", 62167219200, Yearly, 719528);
    PeriodOfDay(other, 62167219200, Monthly, 719528);
  }
}
