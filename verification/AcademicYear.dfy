/** Academic years over the proleptic Gregorian calendar, and their labels. */
module AcademicYear {
  import opened Base

  datatype Date = Date(year: int, month: int, day: int)

  datatype Error = OutOfRange | NotALabel | NotOneYear

  const MIN_YEAR := 1
  const MAX_YEAR := 9999

  // ----- the calendar -----

  predicate Leap(y: int) {
    y % 4 == 0 && (y % 100 != 0 || y % 400 == 0)
  }

  function DaysIn(y: int, m: int): int {
    if m == 2 then (if Leap(y) then 29 else 28)
    else if m in {4, 6, 9, 11} then 30
    else 31
  }

  predicate Valid(d: Date) {
    MIN_YEAR <= d.year <= MAX_YEAR && 1 <= d.month <= 12 && 1 <= d.day <= DaysIn(d.year, d.month)
  }

  function DaysBeforeYear(y: int): int {
    (y - 1) * 365 + (y - 1) / 4 - (y - 1) / 100 + (y - 1) / 400
  }

  function DaysBeforeMonth(y: int, m: int): int
    decreases m
  {
    if m <= 1 then 0 else DaysBeforeMonth(y, m - 1) + DaysIn(y, m - 1)
  }

  function ToOrdinal(d: Date): int {
    DaysBeforeYear(d.year) + DaysBeforeMonth(d.year, d.month) + d.day
  }

  /** Dates compare by year, then month, then day. */
  predicate AtMost(a: Date, b: Date) {
    a.year < b.year || (a.year == b.year && (a.month < b.month || (a.month == b.month && a.day <= b.day)))
  }

  function YearOf(n: int, y: int): int
    decreases MAX_YEAR - y
  {
    if y >= MAX_YEAR || n <= DaysBeforeYear(y + 1) then y else YearOf(n, y + 1)
  }

  function MonthOf(n: int, y: int, m: int): int
    decreases 12 - m
  {
    if m >= 12 || n <= DaysBeforeMonth(y, m + 1) then m else MonthOf(n, y, m + 1)
  }

  function FromOrdinal(n: int): Date {
    var y := YearOf(n, MIN_YEAR);
    var rest := n - DaysBeforeYear(y);
    var m := MonthOf(rest, y, 1);
    Date(y, m, rest - DaysBeforeMonth(y, m))
  }

  lemma EveryFourth(y: int)
    ensures y / 4 == (y - 1) / 4 + if y % 4 == 0 then 1 else 0
  {
  }

  lemma EveryHundredth(y: int)
    ensures y / 100 == (y - 1) / 100 + if y % 100 == 0 then 1 else 0
    ensures y % 100 == 0 ==> y % 4 == 0
  {
  }

  lemma EveryFourHundredth(y: int)
    ensures y / 400 == (y - 1) / 400 + if y % 400 == 0 then 1 else 0
    ensures y % 400 == 0 ==> y % 100 == 0
  {
  }

  lemma YearLength(y: int)
    ensures DaysBeforeYear(y + 1) == DaysBeforeYear(y) + if Leap(y) then 366 else 365
  {
    EveryFourth(y);
    EveryHundredth(y);
    EveryFourHundredth(y);
  }

  lemma MonthLengths(y: int)
    ensures DaysBeforeMonth(y, 13) == if Leap(y) then 366 else 365
    ensures forall m | 2 < m <= 13 :: DaysBeforeMonth(y, m) == DaysBeforeMonth(1, m) + if Leap(y) then 1 else 0
    ensures forall m | m <= 2 :: DaysBeforeMonth(y, m) == DaysBeforeMonth(1, m)
  {
    forall m | m <= 13
      ensures DaysBeforeMonth(y, m) == DaysBeforeMonth(1, m) + if Leap(y) && m > 2 then 1 else 0
    {
      MonthShift(y, m);
    }
    MonthTable();
  }

  lemma {:induction false} MonthShift(y: int, m: int)
    ensures DaysBeforeMonth(y, m) == DaysBeforeMonth(1, m) + if Leap(y) && m > 2 then 1 else 0
    decreases m
  {
    if m > 1 { MonthShift(y, m - 1); }
  }

  lemma MonthTable()
    ensures DaysBeforeMonth(1, 13) == 365
  {
    assert DaysBeforeMonth(1, 4) == 90;
    assert DaysBeforeMonth(1, 7) == 181;
    assert DaysBeforeMonth(1, 10) == 273;
  }

  lemma {:induction false} MonthsGrow(y: int, m: int, n: int)
    requires m < n && 1 <= m
    ensures DaysBeforeMonth(y, m) + DaysIn(y, m) <= DaysBeforeMonth(y, n)
    decreases n
  {
    if m + 1 < n { MonthsGrow(y, m, n - 1); }
  }

  lemma {:induction false} YearsGrow(y: int, z: int)
    requires y < z
    ensures DaysBeforeYear(y + 1) <= DaysBeforeYear(z)
    decreases z - y
  {
    if y + 1 < z {
      YearLength(z - 1);
      YearsGrow(y, z - 1);
    }
  }

  lemma InsideTheYear(d: Date)
    requires Valid(d)
    ensures DaysBeforeYear(d.year) < ToOrdinal(d) <= DaysBeforeYear(d.year + 1)
  {
    MonthsGrow(d.year, d.month, 13);
    MonthLengths(d.year);
    YearLength(d.year);
    MonthStartsNonNegative(d.year, d.month);
  }

  lemma {:induction false} MonthStartsNonNegative(y: int, m: int)
    ensures DaysBeforeMonth(y, m) >= 0
    decreases m
  {
    if m > 1 { MonthStartsNonNegative(y, m - 1); }
  }

  /** Ordinals count days: comparing them is comparing dates. */
  lemma OrdinalsFollowDates(a: Date, b: Date)
    requires Valid(a) && Valid(b)
    ensures AtMost(a, b) <==> ToOrdinal(a) <= ToOrdinal(b)
  {
    InsideTheYear(a);
    InsideTheYear(b);
    if a.year < b.year { YearsGrow(a.year, b.year); }
    if b.year < a.year { YearsGrow(b.year, a.year); }
    if a.year == b.year {
      if a.month < b.month { MonthsGrow(a.year, a.month, b.month); }
      if b.month < a.month { MonthsGrow(a.year, b.month, a.month); }
    }
  }

  /** How long months are, by the rule of 30 days and the leap years of the Gregorian calendar. */
  function MonthLength(y: int, m: int): int {
    if m in {1, 3, 5, 7, 8, 10, 12} then 31
    else if m != 2 then 30
    else if y % 400 == 0 || (y % 4 == 0 && y % 100 != 0) then 29
    else 28
  }

  lemma LengthsAgree(y: int, m: int)
    requires 1 <= m <= 12
    ensures DaysIn(y, m) == MonthLength(y, m)
  {
  }

  lemma FirstOf(y: int, m: int)
    requires 1 <= m <= 12
    ensures ToOrdinal(Date(y, m, 1)) == DaysBeforeYear(y) + DaysBeforeMonth(y, m) + 1
    ensures DaysBeforeMonth(y, m + 1) == DaysBeforeMonth(y, m) + DaysIn(y, m)
    ensures DaysBeforeMonth(y, 1) == 0
  {
  }

  /** The calendar, month by month: from the first of a month to the first of the next are as many
      days as the month has. */
  lemma MonthsHaveTheirDays(y: int, m: int)
    requires 1 <= m <= 12
    ensures ToOrdinal(if m == 12 then Date(y + 1, 1, 1) else Date(y, m + 1, 1)) == ToOrdinal(Date(y, m, 1)) + MonthLength(y, m)
  {
    hide ToOrdinal, DaysBeforeYear, DaysBeforeMonth, DaysIn, MonthLength, Leap;
    LengthsAgree(y, m);
    FirstOf(y, m);
    if m == 12 {
      FirstOf(y + 1, 1);
      YearLength(y);
      MonthLengths(y);
    } else {
      FirstOf(y, m + 1);
    }
  }

  /** And the count begins with the first day of year 1. */
  lemma DayOne()
    ensures ToOrdinal(Date(1, 1, 1)) == 1
  {
  }

  lemma {:induction false} YearOfFinds(n: int, y: int, z: int)
    requires y <= z <= MAX_YEAR && DaysBeforeYear(z) < n <= DaysBeforeYear(z + 1)
    ensures YearOf(n, y) == z
    decreases z - y
  {
    if y < z {
      YearsGrow(y, z);
      YearOfFinds(n, y + 1, z);
    }
  }

  lemma {:induction false} MonthOfFinds(n: int, y: int, m: int, k: int)
    requires 1 <= m <= k <= 12 && DaysBeforeMonth(y, k) < n <= DaysBeforeMonth(y, k + 1)
    ensures MonthOf(n, y, m) == k
    decreases k - m
  {
    if m < k {
      if m + 1 < k { MonthsGrow(y, m + 1, k); }
      MonthStartsNonNegative(y, m);
      MonthOfFinds(n, y, m + 1, k);
    }
  }

  /** Ordinals and dates are the same thing written twice. */
  lemma FromOrdinalInverts(d: Date)
    requires Valid(d)
    ensures FromOrdinal(ToOrdinal(d)) == d
  {
    InsideTheYear(d);
    YearOfFinds(ToOrdinal(d), MIN_YEAR, d.year);
    MonthOfFinds(ToOrdinal(d) - DaysBeforeYear(d.year), d.year, 1, d.month);
  }

  /** The day before the first of a month is the last of the month before. */
  function DayBefore(y: int, m: int): Date {
    if m == 1 then Date(y - 1, 12, 31) else Date(y, m - 1, DaysIn(y, m - 1))
  }

  lemma DayBeforeIsOneLess(y: int, m: int)
    requires 2 <= y <= MAX_YEAR && 1 <= m <= 12
    ensures Valid(DayBefore(y, m)) && ToOrdinal(DayBefore(y, m)) == ToOrdinal(Date(y, m, 1)) - 1
    ensures FromOrdinal(ToOrdinal(Date(y, m, 1)) - 1) == DayBefore(y, m)
  {
    hide DaysBeforeYear, FromOrdinal, Leap;
    if m == 1 {
      YearLength(y - 1);
      MonthLengths(y - 1);
      assert DaysBeforeMonth(y - 1, 13) == DaysBeforeMonth(y - 1, 12) + 31;
    }
    FromOrdinalInverts(DayBefore(y, m));
  }

  // ----- academic years -----

  datatype Year = Year(text: string, start: Date, end: Date) {
    predicate Contains(when: Date) { AtMost(start, when) && AtMost(when, end) }
  }

  function FromStartYear(month: int, y: int): Outcome<Year, Error> {
    if y < MIN_YEAR || y + 1 > MAX_YEAR then Err(OutOfRange)
    else Ok(Year(Label(y), Date(y, month, 1), FromOrdinal(ToOrdinal(Date(y + 1, month, 1)) - 1)))
  }

  function Current(month: int, today: Date): Outcome<Year, Error> {
    FromStartYear(month, if today.month >= month then today.year else today.year - 1)
  }

  function Recent(month: int, count: nat, today: Date): Outcome<seq<Year>, Error> {
    if count == 0 then if Current(month, today).Ok? then Ok([]) else Err(OutOfRange)
    else
      var before := Recent(month, count - 1, today);
      var start := if today.month >= month then today.year else today.year - 1;
      var next := FromStartYear(month, start - (count - 1));
      if before.Ok? && next.Ok? then Ok(before.value + [next.value]) else Err(OutOfRange)
  }

  lemma FromStartYearFacts(month: int, y: int)
    requires 1 <= month <= 12 && MIN_YEAR <= y < MAX_YEAR
    ensures var x := FromStartYear(month, y).value;
            && x.start == Date(y, month, 1) && x.end == DayBefore(y + 1, month)
            && Valid(x.start) && Valid(x.end)
            && ToOrdinal(x.end) + 1 == ToOrdinal(Date(y + 1, month, 1))
  {
    DayBeforeIsOneLess(y + 1, month);
  }

  /** Consecutive years tile the calendar: no day between them and none in both. */
  lemma YearsTile(month: int, y: int)
    requires 1 <= month <= 12 && MIN_YEAR <= y && y + 1 < MAX_YEAR
    ensures var x, z := FromStartYear(month, y), FromStartYear(month, y + 1);
            x.Ok? && z.Ok? && ToOrdinal(x.value.end) + 1 == ToOrdinal(z.value.start)
  {
    FromStartYearFacts(month, y);
    FromStartYearFacts(month, y + 1);
  }

  /** A year has 365 days, or 366 when the 29th of February it covers exists. */
  lemma YearHasItsDays(month: int, y: int)
    requires 1 <= month <= 12 && MIN_YEAR <= y < MAX_YEAR
    ensures var x := FromStartYear(month, y).value;
            ToOrdinal(x.end) - ToOrdinal(x.start) + 1
            == if Leap(if month <= 2 then y else y + 1) then 366 else 365
  {
    hide DaysBeforeYear, DaysBeforeMonth, FromOrdinal, Leap, DayBefore, Label;
    FromStartYearFacts(month, y);
    YearLength(y);
    MonthShift(y, month);
    MonthShift(y + 1, month);
  }

  function StartYearOf(month: int, day: Date): int {
    if day.month >= month then day.year else day.year - 1
  }

  /** A year contains a day exactly when it is the year the rule names for that day. */
  lemma ContainsExactly(month: int, y: int, day: Date)
    requires 1 <= month <= 12 && MIN_YEAR <= y < MAX_YEAR && Valid(day)
    ensures FromStartYear(month, y).value.Contains(day) <==> y == StartYearOf(month, day)
  {
    FromStartYearFacts(month, y);
    var x := FromStartYear(month, y).value;
    OrdinalsFollowDates(x.start, day);
    OrdinalsFollowDates(day, x.end);
    OrdinalsFollowDates(Date(y + 1, month, 1), day);
  }

  /** For every start month and every date, `current` gives the one and only year that
      contains it; it fails exactly where that year leaves the calendar. */
  lemma CurrentIsTheOnlyYear(month: int, today: Date)
    requires 1 <= month <= 12 && Valid(today)
    ensures Current(month, today).Ok? ==> Current(month, today).value.Contains(today)
    ensures forall y | MIN_YEAR <= y < MAX_YEAR && FromStartYear(month, y).value.Contains(today) ::
              Current(month, today) == FromStartYear(month, y)
    ensures Current(month, today).Err?
       <==> (today.year == 1 && today.month < month) || (today.year == 9999 && today.month >= month)
  {
    var start := StartYearOf(month, today);
    if MIN_YEAR <= start < MAX_YEAR { ContainsExactly(month, start, today); }
    forall y | MIN_YEAR <= y < MAX_YEAR && FromStartYear(month, y).value.Contains(today) ensures y == start {
      ContainsExactly(month, y, today);
    }
  }

  /** The years offered are real, newest first from the current one, and without gaps; the
      list fails exactly when it reaches beyond the calendar. */
  lemma {:induction false} RecentYearsTileBackwards(month: int, count: nat, today: Date)
    requires 1 <= month <= 12 && Valid(today)
    ensures Recent(month, count, today).Ok?
       <==> MIN_YEAR <= StartYearOf(month, today) < MAX_YEAR && MIN_YEAR <= StartYearOf(month, today) - count + 1
    ensures Recent(month, count, today).Ok? ==>
              var ys := Recent(month, count, today).value;
              && |ys| == count
              && (count > 0 ==> ys[0].Contains(today))
              && (forall i | 0 <= i < count :: FromStartYear(month, StartYearOf(month, today) - i) == Ok(ys[i]))
              && forall i | 0 <= i < count - 1 :: ToOrdinal(ys[i + 1].end) + 1 == ToOrdinal(ys[i].start)
  {
    hide ToOrdinal, FromOrdinal, Label, Leap, AtMost, Valid, Year.Contains;
    if count > 0 {
      RecentYearsTileBackwards(month, count - 1, today);
      var start := StartYearOf(month, today);
      if MIN_YEAR <= start < MAX_YEAR && MIN_YEAR <= start - count + 1 {
        if count > 1 {
          YearsTile(month, start - (count - 1));
        }
        CurrentIsTheOnlyYear(month, today);
      }
    }
  }

  // ----- labels -----

  function DigitOf(n: nat): char
    requires n < 10
  {
    "0123456789"[n]
  }

  function Str(n: nat): string {
    if n < 10 then [DigitOf(n)] else Str(n / 10) + [DigitOf(n % 10)]
  }

  /** Which characters are decimal digits, and of what value, and which are white space:
      Python's pattern and conversion follow Unicode here, of which only this is used. */
  datatype Alphabet = Alphabet(value: char -> Option<nat>, space: char -> bool)

  ghost predicate Unicode(al: Alphabet) {
    && (forall n: nat | n < 10 :: al.value(DigitOf(n)) == Some(n))
    && (forall c :: al.value(c).Some? ==> al.value(c).value < 10 && !al.space(c))
    && al.value('-').None? && !al.space('-')
    && al.value('/').None? && !al.space('/')
    && al.value('\U{2013}').None? && !al.space('\U{2013}')
  }

  /** The ASCII part of it: digits, blanks and the separators 0x1C to 0x1F. */
  lemma AsciiIsAnAlphabet()
    ensures Unicode(Alphabet(
      c => if '0' <= c <= '9' then Some(c as int - '0' as int) else None,
      c => c == ' ' || '\t' <= c <= '\r' || '\U{1C}' <= c <= '\U{1F}'))
  {
  }

  predicate IsDigit(al: Alphabet, c: char) { al.value(c).Some? }

  predicate Digits(al: Alphabet, s: string) { forall i | 0 <= i < |s| :: IsDigit(al, s[i]) }

  function Value(al: Alphabet, c: char): nat { if IsDigit(al, c) then al.value(c).value else 0 }

  function Int(al: Alphabet, s: string): nat {
    if s == "" then 0 else Int(al, s[..|s| - 1]) * 10 + Value(al, s[|s| - 1])
  }

  function LastTwo(s: string): string {
    if |s| <= 2 then s else s[|s| - 2..]
  }

  function FirstTwo(s: string): string {
    if |s| <= 2 then s else s[..2]
  }

  function Label(y: int): string
    requires y >= 0
  {
    Str(y) + "-" + LastTwo(Str(y + 1))
  }

  predicate IsSeparator(c: char) { c in {'-', '\U{2013}', '/'} }

  function SkipSpaces(al: Alphabet, s: string): string {
    if s != "" && al.space(s[0]) then SkipSpaces(al, s[1..]) else s
  }

  function DropSpaces(al: Alphabet, s: string): string {
    if s != "" && al.space(s[|s| - 1]) then DropSpaces(al, s[..|s| - 1]) else s
  }

  function Strip(al: Alphabet, s: string): string { DropSpaces(al, SkipSpaces(al, s)) }

  /** Four digits, a separator with spaces around it, then two or four digits. */
  function Match(al: Alphabet, s: string): Option<(string, string)> {
    if |s| < 4 || !Digits(al, s[..4]) then None
    else
      var rest := SkipSpaces(al, s[4..]);
      if rest == "" || !IsSeparator(rest[0]) then None
      else
        var tail := SkipSpaces(al, rest[1..]);
        if (|tail| == 2 || |tail| == 4) && Digits(al, tail) then Some((s[..4], tail)) else None
  }

  function Parse(al: Alphabet, month: int, text: string): Outcome<Year, Error> {
    match Match(al, Strip(al, text))
    case None => Err(NotALabel)
    case Some((head, tail)) =>
      var start := Int(al, head);
      var end := if |tail| == 4 then Int(al, tail) else Int(al, FirstTwo(Str(start)) + tail);
      if end != start + 1 then Err(NotOneYear) else FromStartYear(month, start)
  }

  lemma {:induction false} StrFacts(al: Alphabet, n: nat)
    requires Unicode(al)
    ensures Digits(al, Str(n)) && Int(al, Str(n)) == n && |Str(n)| >= 1
    ensures n < 10 <==> |Str(n)| == 1
    ensures n < 100 <==> |Str(n)| <= 2
    ensures n < 1000 <==> |Str(n)| <= 3
    ensures n < 10000 <==> |Str(n)| <= 4
  {
    if n < 10 {
      assert Str(n)[..0] == "";
    } else {
      StrFacts(al, n / 10);
      var s := Str(n);
      assert s[..|s| - 1] == Str(n / 10);
    }
  }

  lemma IntGrows(al: Alphabet, a: string, c: char)
    requires Unicode(al)
    ensures Int(al, a + [c]) == Int(al, a) * 10 + Value(al, c)
  {
    assert (a + [c])[..|a|] == a;
  }

  lemma IntTwo(al: Alphabet, a: string, b: string)
    requires Unicode(al)
    requires |b| == 2
    ensures Int(al, a + b) == Int(al, a) * 100 + Int(al, b) && 0 <= Int(al, b) < 100
  {
    assert a + b == (a + [b[0]]) + [b[1]] && b == ([] + [b[0]]) + [b[1]];
    IntGrows(al, a + [b[0]], b[1]);
    IntGrows(al, a, b[0]);
    IntGrows(al, [b[0]], b[1]);
    IntGrows(al, [], b[0]);
  }

  lemma StrTail(n: nat)
    requires n >= 10
    ensures |Str(n)| == |Str(n / 10)| + 1 && Str(n)[..|Str(n)| - 1] == Str(n / 10)
  {
  }

  lemma FirstTwoOfStr(al: Alphabet, n: nat)
    requires Unicode(al)
    requires 1 <= n < 10000
    ensures Int(al, FirstTwo(Str(n))) == if n < 100 then n else if n < 1000 then n / 10 else n / 100
  {
    hide Str, Int, Unicode, Digits;
    StrFacts(al, n);
    if n >= 100 {
      StrTail(n);
      StrFacts(al, n / 10);
      if n >= 1000 {
        StrTail(n / 10);
        assert n / 10 / 10 == n / 100;
        StrFacts(al, n / 100);
        assert Str(n)[..2] == Str(n / 10)[..2] == Str(n / 100);
      } else {
        assert Str(n)[..2] == Str(n / 10);
      }
    }
  }

  lemma LastTwoAreDigits(al: Alphabet, s: string)
    requires Digits(al, s) && |s| >= 2
    ensures |LastTwo(s)| == 2 && Digits(al, LastTwo(s)) && s == s[..|s| - 2] + LastTwo(s)
  {
  }

  lemma LastTwoOfStr(al: Alphabet, n: nat)
    requires Unicode(al)
    requires 10 <= n
    ensures |LastTwo(Str(n))| == 2 && Digits(al, LastTwo(Str(n))) && Int(al, LastTwo(Str(n))) == n % 100
  {
    hide Str, Int, Unicode, Digits, LastTwo;
    StrFacts(al, n);
    var s := Str(n);
    LastTwoAreDigits(al, s);
    IntTwo(al, s[..|s| - 2], LastTwo(s));
    Remainder(Int(al, s[..|s| - 2]), Int(al, LastTwo(s)), n);
  }

  lemma Remainder(a: nat, b: nat, n: nat)
    requires n == a * 100 + b && b < 100
    ensures n % 100 == b
  {
  }

  lemma {:induction false} FourDigitsBound(al: Alphabet, s: string)
    requires Unicode(al)
    requires Digits(al, s) && |s| <= 4
    ensures Int(al, s) < 10000 && (|s| <= 3 ==> Int(al, s) < 1000) && (|s| <= 2 ==> Int(al, s) < 100) && (|s| <= 1 ==> Int(al, s) < 10)
  {
    if s != "" { FourDigitsBound(al, s[..|s| - 1]); }
  }

  predicate Spaces(al: Alphabet, s: string) { forall i | 0 <= i < |s| :: al.space(s[i]) }

  lemma {:induction false} SkipSplits(al: Alphabet, s: string) returns (a: string)
    ensures s == a + SkipSpaces(al, s) && Spaces(al, a)
    ensures SkipSpaces(al, s) != "" ==> !al.space(SkipSpaces(al, s)[0])
  {
    a := "";
    if s != "" && al.space(s[0]) {
      var b := SkipSplits(al, s[1..]);
      a := [s[0]] + b;
    }
  }

  lemma {:induction false} DropSplits(al: Alphabet, s: string) returns (d: string)
    ensures s == DropSpaces(al, s) + d && Spaces(al, d)
  {
    d := "";
    if s != "" && al.space(s[|s| - 1]) {
      var b := DropSplits(al, s[..|s| - 1]);
      d := b + [s[|s| - 1]];
    }
  }

  lemma {:induction false} SkipsOver(al: Alphabet, a: string, r: string)
    requires Spaces(al, a) && (r == "" || !al.space(r[0]))
    ensures SkipSpaces(al, a + r) == r
    decreases |a|
  {
    if a == "" {
      assert a + r == r;
    } else {
      assert (a + r)[0] == a[0] && (a + r)[1..] == a[1..] + r;
      SkipsOver(al, a[1..], r);
    }
  }

  lemma {:induction false} DropsOver(al: Alphabet, r: string, d: string)
    requires Spaces(al, d) && (r == "" || !al.space(r[|r| - 1]))
    ensures DropSpaces(al, r + d) == r
    decreases |d|
  {
    if d == "" {
      assert r + d == r;
    } else {
      var n := |r + d| - 1;
      assert (r + d)[n] == d[|d| - 1] && (r + d)[..n] == r + d[..|d| - 1];
      DropsOver(al, r, d[..|d| - 1]);
    }
  }

  /** The text is four digits, a dash or a slash, and two or four digits, with white space
      allowed around each. */
  ghost predicate Spells(al: Alphabet, text: string, head: string, tail: string) {
    && |head| == 4 && Digits(al, head) && |tail| in {2, 4} && Digits(al, tail)
    && exists a: string, b: string, sep: string, c: string, d: string ::
         && text == a + (head + (b + (sep + (c + tail)))) + d
         && Spaces(al, a) && Spaces(al, b) && Spaces(al, c) && Spaces(al, d)
         && sep in {"-", "\U{2013}", "/"}
  }

  lemma MatchedParts(al: Alphabet, s: string, head: string, tail: string) returns (b: string, sep: string, c: string)
    requires Match(al, s) == Some((head, tail))
    ensures |head| == 4 && Digits(al, head) && |tail| in {2, 4} && Digits(al, tail)
    ensures s == head + (b + (sep + (c + tail))) && Spaces(al, b) && Spaces(al, c) && sep in {"-", "\U{2013}", "/"}
  {
    hide SkipSpaces, Digits, Spaces;
    b := SkipSplits(al, s[4..]);
    var rest := SkipSpaces(al, s[4..]);
    c := SkipSplits(al, rest[1..]);
    sep := [rest[0]];
    assert rest == sep + (c + tail);
    assert s == head + (b + (sep + (c + tail)));
  }

  lemma MatchedIsSpelled(al: Alphabet, text: string, head: string, tail: string)
    requires Match(al, Strip(al, text)) == Some((head, tail))
    ensures Spells(al, text, head, tail)
  {
    hide SkipSpaces, DropSpaces, Digits, Spaces, Match;
    var a := SkipSplits(al, text);
    var d := DropSplits(al, SkipSpaces(al, text));
    var b, sep, c := MatchedParts(al, Strip(al, text), head, tail);
    assert text == a + (head + (b + (sep + (c + tail)))) + d;
  }

  lemma StrippedIsInside(al: Alphabet, a: string, s: string, d: string)
    requires Spaces(al, a) && Spaces(al, d) && s != "" && !al.space(s[0]) && !al.space(s[|s| - 1])
    ensures Strip(al, a + s + d) == s
  {
    hide SkipSpaces, DropSpaces;
    assert a + s + d == a + (s + d) && (s + d)[0] == s[0];
    SkipsOver(al, a, s + d);
    DropsOver(al, s, d);
  }

  lemma InsideIsMatched(al: Alphabet, head: string, b: string, sep: string, c: string, tail: string)
    requires |head| == 4 && Digits(al, head) && |tail| in {2, 4} && Digits(al, tail) && Spaces(al, b) && Spaces(al, c)
    requires |sep| == 1 && !al.space(sep[0]) && IsSeparator(sep[0]) && !al.space(tail[0])
    ensures Match(al, head + (b + (sep + (c + tail)))) == Some((head, tail))
  {
    hide SkipSpaces, Digits, Spaces;
    var rest := sep + (c + tail);
    var s := head + (b + rest);
    assert s[..4] == head && s[4..] == b + rest;
    SkipsOver(al, b, rest);
    assert rest[0] == sep[0] && rest[1..] == c + tail;
    SkipsOver(al, c, tail);
  }

  lemma Spelling(al: Alphabet, text: string, head: string, tail: string)
    returns (a: string, b: string, sep: string, c: string, d: string)
    requires Spells(al, text, head, tail)
    ensures |head| == 4 && Digits(al, head) && |tail| in {2, 4} && Digits(al, tail)
    ensures text == a + (head + (b + (sep + (c + tail)))) + d && sep in {"-", "\U{2013}", "/"}
    ensures Spaces(al, a) && Spaces(al, b) && Spaces(al, c) && Spaces(al, d)
  {
    a, b, sep, c, d :|
      && text == a + (head + (b + (sep + (c + tail)))) + d
      && Spaces(al, a) && Spaces(al, b) && Spaces(al, c) && Spaces(al, d)
      && sep in {"-", "\U{2013}", "/"};
  }

  lemma EndsOf(head: string, middle: string, tail: string)
    requires head != "" && tail != ""
    ensures var s := head + (middle + tail); s != "" && s[0] == head[0] && s[|s| - 1] == tail[|tail| - 1]
  {
  }

  lemma SpelledIsMatched(al: Alphabet, text: string, head: string, tail: string)
    requires Unicode(al) && Spells(al, text, head, tail)
    ensures Match(al, Strip(al, text)) == Some((head, tail))
  {
    hide Strip, Match, Unicode, Digits, Spaces, Spells, IsSeparator;
    var a, b, sep, c, d := Spelling(al, text, head, tail);
    var s := head + (b + (sep + (c + tail)));
    DigitsAreNotSpaces(al, head, 0);
    DigitsAreNotSpaces(al, tail, 0);
    DigitsAreNotSpaces(al, tail, |tail| - 1);
    SeparatorsAreNotSpaces(al, sep);
    assert s == head + ((b + (sep + c)) + tail);
    EndsOf(head, b + (sep + c), tail);
    StrippedIsInside(al, a, s, d);
    InsideIsMatched(al, head, b, sep, c, tail);
  }

  lemma SeparatorsAreNotSpaces(al: Alphabet, sep: string)
    requires Unicode(al) && sep in {"-", "\U{2013}", "/"}
    ensures |sep| == 1 && !al.space(sep[0]) && IsSeparator(sep[0])
  {
  }

  /** What is read from a text, exactly: the two numbers it spells. */
  lemma ReadsWhatIsSpelled(al: Alphabet, text: string, head: string, tail: string)
    requires Unicode(al)
    ensures Match(al, Strip(al, text)) == Some((head, tail)) <==> Spells(al, text, head, tail)
  {
    hide Match, Strip, Spells;
    if Match(al, Strip(al, text)) == Some((head, tail)) { MatchedIsSpelled(al, text, head, tail); }
    if Spells(al, text, head, tail) { SpelledIsMatched(al, text, head, tail); }
  }

  /** What is accepted, exactly: four digits naming a year of the calendar, followed by
      the next year in full, or by its last two digits when the century does not turn. */
  lemma ParseAcceptsExactly(al: Alphabet, month: int, text: string)
    requires Unicode(al)
    ensures var m := Match(al, Strip(al, text));
            Parse(al, month, text).Ok?
            <==> m.Some? && var y, tail := Int(al, m.value.0), m.value.1;
                 && MIN_YEAR <= y < MAX_YEAR
                 && (if |tail| == 4 then Int(al, tail) == y + 1
                     else y >= 1000 && y % 100 != 99 && Int(al, tail) == y % 100 + 1)
    ensures Parse(al, month, text).Ok? ==> Parse(al, month, text) == FromStartYear(month, Int(al, Match(al, Strip(al, text)).value.0))
  {
    var m := Match(al, Strip(al, text));
    if m.Some? {
      var (head, tail) := m.value;
      FourDigitsBound(al, head);
      if |tail| == 2 && Int(al, head) >= 1 {
        FirstTwoOfStr(al, Int(al, head));
        IntTwo(al, FirstTwo(Str(Int(al, head))), tail);
      }
    }
  }

  lemma StripLeavesLabels(al: Alphabet, s: string)
    requires Unicode(al)
    requires s != "" && !al.space(s[0]) && !al.space(s[|s| - 1])
    ensures Strip(al, s) == s
  {
  }

  lemma LabelMatches(al: Alphabet, y: nat)
    requires Unicode(al)
    requires 1000 <= y < MAX_YEAR
    ensures Match(al, Strip(al, Label(y))) == Some((Str(y), LastTwo(Str(y + 1))))
  {
    StrFacts(al, y);
    LastTwoOfStr(al, y + 1);
    var s, tail := Label(y), LastTwo(Str(y + 1));
    assert s[0] == Str(y)[0] && s[|s| - 1] == tail[1];
    StripLeavesLabels(al, s);
    assert s[..4] == Str(y) && s[4..] == "-" + tail;
    assert s[4..][1..] == tail;
  }

  /** A label of a four-digit year is that year, a hyphen, and the last two digits of the next. */
  lemma LabelsNameBothYears(al: Alphabet, y: nat)
    requires Unicode(al) && 1000 <= y < MAX_YEAR
    ensures |Label(y)| == 7 && Digits(al, Label(y)[..4]) && Label(y)[4] == '-' && Digits(al, Label(y)[5..])
    ensures Int(al, Label(y)[..4]) == y && Int(al, Label(y)[5..]) == (y + 1) % 100
  {
    hide Str, Int, Digits, LastTwo;
    StrFacts(al, y);
    LastTwoOfStr(al, y + 1);
    assert Label(y)[..4] == Str(y) && Label(y)[5..] == LastTwo(Str(y + 1));
  }

  lemma LongLabelReadsBack(al: Alphabet, month: int, y: nat)
    requires Unicode(al)
    requires 1000 <= y < MAX_YEAR
    ensures Parse(al, month, Label(y)).Ok? <==> y % 100 != 99
    ensures Parse(al, month, Label(y)).Ok? ==> Parse(al, month, Label(y)) == FromStartYear(month, y)
  {
    hide Str, Int, Strip, Match, Parse, FromStartYear, Label, LastTwo, Digits;
    ParseAcceptsExactly(al, month, Label(y));
    LabelMatches(al, y);
    StrFacts(al, y);
    LastTwoOfStr(al, y + 1);
  }

  /** A printed label reads back as the year it was printed for, exactly when that year
      has four digits and does not end in 99. */
  lemma LabelsReadBackExactly(al: Alphabet, month: int, y: nat)
    requires Unicode(al)
    requires 1 <= month <= 12 && MIN_YEAR <= y < MAX_YEAR
    ensures Parse(al, month, Label(y)) == FromStartYear(month, y) <==> y >= 1000 && y % 100 != 99
  {
    if y >= 1000 {
      LongLabelReadsBack(al, month, y);
    } else {
      ShortLabelFails(al, y);
    }
    hide Str, Int, Strip, Match, Label, LastTwo, Digits, ToOrdinal, FromOrdinal;
  }

  lemma ShortLabelFails(al: Alphabet, y: nat)
    requires Unicode(al)
    requires 1 <= y < 1000
    ensures Match(al, Strip(al, Label(y))).None?
  {
    LabelEnds(al, y);
    StripLeavesLabels(al, Label(y));
    if |Label(y)| >= 4 {
      DashIsNoDigit(al, Label(y)[..4], |Str(y)|);
    }
  }

  lemma LabelEnds(al: Alphabet, y: nat)
    requires Unicode(al)
    requires 1 <= y < 1000
    ensures var s := Label(y);
            && s != "" && !al.space(s[0]) && !al.space(s[|s| - 1])
            && 1 <= |Str(y)| <= 3 && |Str(y)| < |s| && s[|Str(y)|] == '-'
  {
    hide Str, Int, Digits;
    StrFacts(al, y);
    StrFacts(al, y + 1);
    TailIsDigits(al, Str(y + 1));
    JoinedEnds(al, Str(y), LastTwo(Str(y + 1)));
  }

  lemma TailIsDigits(al: Alphabet, s: string)
    requires Unicode(al)
    requires Digits(al, s) && s != ""
    ensures Digits(al, LastTwo(s)) && LastTwo(s) != ""
  {
  }

  lemma JoinedEnds(al: Alphabet, a: string, b: string)
    requires Unicode(al)
    requires Digits(al, a) && Digits(al, b) && a != "" && b != ""
    ensures var s := a + "-" + b;
            !al.space(s[0]) && !al.space(s[|s| - 1]) && s[|a|] == '-'
  {
    DigitsAreNotSpaces(al, a, 0);
    DigitsAreNotSpaces(al, b, |b| - 1);
  }

  lemma DigitsAreNotSpaces(al: Alphabet, s: string, i: nat)
    requires Unicode(al)
    requires Digits(al, s) && i < |s|
    ensures !al.space(s[i])
  {
  }

  lemma DashIsNoDigit(al: Alphabet, s: string, i: nat)
    requires Unicode(al)
    requires i < |s| && s[i] == '-'
    ensures !Digits(al, s)
  {
  }
}
