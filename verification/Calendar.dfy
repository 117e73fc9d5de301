/** Civil days as the language runtime counts them, their printed form, and the week that a
    price or a settlement is keyed by. */
module Calendar {
  import opened Text

  /* ---- day numbers ---- */

  predicate Leap(y: int) { y % 4 == 0 && (y % 100 != 0 || y % 400 == 0) }

  /** The day number of 1 January; days are counted from 1 January 1970. */
  function YearStart(y: int): (n: int) {
    365 * (y - 1970) + (y - 1969) / 4 - (y - 1901) / 100 + (y - 1601) / 400
  }

  function YearDays(y: int): (n: int) { if Leap(y) then 366 else 365 }

  /** Days of the year before the month; month 13 is the whole year. */
  function MonthStart(leap: bool, m: int): (n: int)
    requires 1 <= m <= 13
  {
    var l := if leap then 1 else 0;
    if m == 1 then 0 else if m == 2 then 31 else if m == 3 then 59 + l else if m == 4 then 90 + l
    else if m == 5 then 120 + l else if m == 6 then 151 + l else if m == 7 then 181 + l else if m == 8 then 212 + l
    else if m == 9 then 243 + l else if m == 10 then 273 + l else if m == 11 then 304 + l else if m == 12 then 334 + l
    else 365 + l
  }

  function DaysIn(y: int, m: int): (n: int)
    requires 1 <= m <= 12
  {
    MonthStart(Leap(y), m + 1) - MonthStart(Leap(y), m)
  }

  datatype Date = Date(year: int, month: int, day: int)

  predicate Exists(d: Date) { 1 <= d.month <= 12 && 1 <= d.day <= DaysIn(d.year, d.month) }

  function DayOf(d: Date): (n: int)
    requires 1 <= d.month <= 12
  {
    YearStart(d.year) + MonthStart(Leap(d.year), d.month) + d.day - 1
  }

  lemma Fours(y: int)
    ensures (y - 1968) / 4 - (y - 1969) / 4 == if y % 4 == 0 then 1 else 0
  {
  }

  lemma Centuries(y: int)
    ensures (y - 1900) / 100 - (y - 1901) / 100 == if y % 100 == 0 then 1 else 0
  {
  }

  lemma FourCenturies(y: int)
    ensures (y - 1600) / 400 - (y - 1601) / 400 == if y % 400 == 0 then 1 else 0
  {
  }

  lemma Multiple(y: int, q: int, d: nat)
    requires (d == 4 || d == 100) && y == q * d
    ensures y % d == 0
  {
  }

  lemma Nested(y: int)
    ensures y % 400 == 0 ==> y % 100 == 0
    ensures y % 100 == 0 ==> y % 4 == 0
  {
    if y % 400 == 0 { Multiple(y, 4 * (y / 400), 100); }
    if y % 100 == 0 { Multiple(y, 25 * (y / 100), 4); }
  }

  lemma YearLength(y: int)
    ensures YearStart(y + 1) - YearStart(y) == YearDays(y)
  {
    Fours(y);
    Centuries(y);
    FourCenturies(y);
    Nested(y);
    YearLengthBy(y, (y - 1969) / 4, (y - 1901) / 100, (y - 1601) / 400);
  }

  lemma YearLengthBy(y: int, a: int, b: int, c: int)
    requires (y - 1969) / 4 == a && (y - 1901) / 100 == b && (y - 1601) / 400 == c
    requires (y + 1 - 1969) / 4 == a + if y % 4 == 0 then 1 else 0
    requires (y + 1 - 1901) / 100 == b + if y % 100 == 0 then 1 else 0
    requires (y + 1 - 1601) / 400 == c + if y % 400 == 0 then 1 else 0
    requires (y % 400 == 0 ==> y % 100 == 0) && (y % 100 == 0 ==> y % 4 == 0)
    ensures YearStart(y + 1) - YearStart(y) == YearDays(y)
  {
    assert YearStart(y) == 365 * (y - 1970) + a - b + c;
    assert YearStart(y + 1) == 365 * (y + 1 - 1970) + (y + 1 - 1969) / 4 - (y + 1 - 1901) / 100 + (y + 1 - 1601) / 400;
  }

  lemma {:induction false} YearsApart(y: int, z: int)
    requires y <= z
    ensures YearStart(z) - YearStart(y) >= 365 * (z - y)
    decreases z - y
  {
    hide YearStart;
    if y < z {
      YearsApart(y, z - 1);
      YearLength(z - 1);
    }
  }

  /** The year a day falls in, found by walking from a guess. */
  function YearFrom(n: int, y: int): (year: int)
    ensures YearStart(year) <= n < YearStart(year + 1)
    decreases if n < YearStart(y) then YearStart(y) - n
              else if n >= YearStart(y + 1) then n - YearStart(y + 1) + 1 else 0
  {
    hide YearStart;
    YearLength(y);
    YearLength(y - 1);
    YearLength(y + 1);
    if n < YearStart(y) then YearFrom(n, y - 1)
    else if n >= YearStart(y + 1) then YearFrom(n, y + 1)
    else y
  }

  function YearOf(n: int): (year: int)
    ensures YearStart(year) <= n < YearStart(year + 1)
  {
    YearFrom(n, 1970)
  }

  lemma YearIs(n: int, y: int)
    requires YearStart(y) <= n < YearStart(y + 1)
    ensures YearOf(n) == y
  {
    hide YearStart, YearOf;
    var z := YearOf(n);
    if z < y { YearsApart(z + 1, y); }
    if y < z { YearsApart(y + 1, z); }
  }

  lemma YearOrder(n: int, m: int)
    requires n <= m
    ensures YearOf(n) <= YearOf(m)
  {
    hide YearStart, YearOf;
    if YearOf(m) < YearOf(n) { YearsApart(YearOf(m) + 1, YearOf(n)); }
  }

  function MonthOf(leap: bool, r: int): (m: int)
    requires 0 <= r < MonthStart(leap, 13)
    ensures 1 <= m <= 12 && MonthStart(leap, m) <= r < MonthStart(leap, m + 1)
  {
    if r < MonthStart(leap, 2) then 1 else if r < MonthStart(leap, 3) then 2 else if r < MonthStart(leap, 4) then 3
    else if r < MonthStart(leap, 5) then 4 else if r < MonthStart(leap, 6) then 5 else if r < MonthStart(leap, 7) then 6
    else if r < MonthStart(leap, 8) then 7
    else if r < MonthStart(leap, 9) then 8 else if r < MonthStart(leap, 10) then 9
    else if r < MonthStart(leap, 11) then 10 else if r < MonthStart(leap, 12) then 11 else 12
  }

  lemma YearIsItsMonths(y: int)
    ensures YearStart(y + 1) == YearStart(y) + MonthStart(Leap(y), 13)
  {
    hide YearStart;
    YearLength(y);
  }

  lemma InMonth(y: int, m: int, r: int)
    requires 1 <= m <= 12 && MonthStart(Leap(y), m) <= r < MonthStart(Leap(y), m + 1)
    ensures var d := Date(y, m, r - MonthStart(Leap(y), m) + 1); Exists(d) && DayOf(d) == YearStart(y) + r
  {
    hide YearStart, MonthStart, Leap;
  }

  function DateIn(y: int, r: int): (d: Date)
    requires 0 <= r < MonthStart(Leap(y), 13)
    ensures Exists(d) && DayOf(d) == YearStart(y) + r
  {
    hide YearStart, Leap, MonthStart, MonthOf, Exists, DayOf;
    var m := MonthOf(Leap(y), r);
    InMonth(y, m, r);
    Date(y, m, r - MonthStart(Leap(y), m) + 1)
  }

  function DateOf(n: int): (d: Date)
    ensures Exists(d) && DayOf(d) == n
  {
    hide YearStart, YearOf, Leap, MonthStart, Exists, DayOf, DateIn;
    var y := YearOf(n);
    YearIsItsMonths(y);
    DateIn(y, n - YearStart(y))
  }

  lemma MonthInYear(leap: bool, m: int)
    requires 1 <= m <= 12
    ensures 0 <= MonthStart(leap, m) < MonthStart(leap, m + 1) <= MonthStart(leap, 13)
  {
  }

  lemma InYear(d: Date)
    requires Exists(d)
    ensures YearStart(d.year) <= DayOf(d) < YearStart(d.year + 1)
  {
    hide YearStart, MonthStart;
    YearLength(d.year);
    MonthInYear(Leap(d.year), d.month);
    MonthEnds(d.year);
  }

  lemma MonthEnds(y: int)
    ensures MonthStart(Leap(y), 1) == 0 && MonthStart(Leap(y), 12) == YearDays(y) - 31
    ensures MonthStart(Leap(y), 13) == YearDays(y)
  {
  }

  lemma MonthsApart(leap: bool, m: int, k: int)
    requires 1 <= m < k <= 13
    ensures MonthStart(leap, m + 1) <= MonthStart(leap, k)
  {
  }

  /** Days and dates are one to one. */
  lemma DateIs(d: Date)
    requires Exists(d)
    ensures DateOf(DayOf(d)) == d
  {
    hide YearStart, MonthStart, YearOf, MonthOf;
    var n := DayOf(d);
    InYear(d);
    YearIs(n, d.year);
    var e := DateOf(n);
    if e.month < d.month { MonthsApart(Leap(d.year), e.month, d.month); }
    if d.month < e.month { MonthsApart(Leap(d.year), d.month, e.month); }
  }

  /* ---- printed days ---- */

  function Expanded(y: int): (s: string)
    requires y < 0 || y > 9999
  {
    (if y < 0 then "-" else "+") + Fixed(10, if y < 0 then -y else y, 6)
  }

  function MonthDay(d: Date): (s: string)
    requires Exists(d)
    ensures |s| == 6
  {
    "-" + Fixed(10, d.month, 2) + "-" + Fixed(10, d.day, 2)
  }

  /** The first ten characters of the printed instant: a plain day from year 0 to 9999, and a
      torn one outside. */
  function Iso(n: int): (s: string)
    ensures |s| == 10
  {
    var d := DateOf(n);
    if 0 <= d.year <= 9999 then Fixed(10, d.year, 4) + MonthDay(d) else (Expanded(d.year) + MonthDay(d))[..10]
  }

  predicate IsDayKey(s: string) {
    |s| == 10 && AllDigits(10, s[..4]) && s[4] == '-' && AllDigits(10, s[5..7]) && s[7] == '-' && AllDigits(10, s[8..])
  }

  /** `Date.UTC(y, month, day)`: years 0 to 99 mean 1900 to 1999, months and days overflow. */
  function Utc(y: int, month: int, day: int): (n: int) {
    var full := if 0 <= y <= 99 then 1900 + y else y;
    YearStart(full + month / 12) + MonthStart(Leap(full + month / 12), month % 12 + 1) + day - 1
  }

  function ParseDay(s: string): (n: int)
    requires IsDayKey(s)
  {
    Utc(Value(10, s[..4]), Value(10, s[5..7]) - 1, Value(10, s[8..]))
  }

  lemma Powers()
    ensures Pow(10, 2) == 100 && Pow(10, 4) == 10000
  {
    assert Pow(10, 0) == 1 && Pow(10, 1) == 10 && Pow(10, 2) == 100 && Pow(10, 3) == 1000;
  }

  /** The parts of a printed day, read back. */
  lemma IsoParts(n: int)
    requires 0 <= YearOf(n) <= 9999
    ensures var s, d := Iso(n), DateOf(n);
            && IsDayKey(s) && Value(10, s[..4]) == d.year && Value(10, s[5..7]) == d.month && Value(10, s[8..]) == d.day
            && s == s[..4] + ("-" + s[5..7] + "-" + s[8..])
            && s[..4] == Fixed(10, d.year, 4) && s[5..7] == Fixed(10, d.month, 2) && s[8..] == Fixed(10, d.day, 2)
  {
    hide Value, YearOf, YearFrom;
    Powers();
    var s, d := Iso(n), DateOf(n);
    var y, m, k := Fixed(10, d.year, 4), Fixed(10, d.month, 2), Fixed(10, d.day, 2);
    hide Fixed, Pow;
    MonthBounds(d);
    assert s == y + "-" + m + "-" + k;
    assert s[..4] == y && s[5..7] == m && s[8..] == k;
    FixedValue(10, d.year, 4);
    FixedValue(10, d.month, 2);
    FixedValue(10, d.day, 2);
  }

  lemma MonthBounds(d: Date)
    ensures Exists(d) ==> 1 <= d.month <= 12 && 1 <= d.day <= 31
  {
  }

  /** Reading a printed day gives it back, except that the first century is taken for the
      twentieth. */
  lemma IsoRoundTrip(n: int)
    requires 0 <= YearOf(n) <= 9999
    ensures IsDayKey(Iso(n)) && (ParseDay(Iso(n)) == n <==> YearOf(n) >= 100)
    ensures YearOf(n) < 100 ==> ParseDay(Iso(n)) >= YearStart(1900)
  {
    hide YearStart, MonthStart, Iso, Value, YearOf, MonthOf, Utc, IsDayKey;
    IsoParts(n);
    YearOfDate(n);
    UtcOfDate(DateOf(n));
  }

  lemma UtcOfDate(d: Date)
    requires Exists(d) && d.year >= 0
    ensures Utc(d.year, d.month - 1, d.day) == DayOf(d) <==> d.year >= 100
    ensures d.year < 100 ==> Utc(d.year, d.month - 1, d.day) >= YearStart(1900)
  {
    hide YearStart, MonthStart;
    MonthBounds(d);
    assert (d.month - 1) / 12 == 0 && (d.month - 1) % 12 == d.month - 1;
    if d.year < 100 {
      YearsApart(1900, 1900 + d.year);
      YearsApart(d.year + 1, 1900 + d.year);
      InYear(d);
      MonthInYear(Leap(1900 + d.year), d.month);
    }
  }

  lemma YearOfDate(n: int)
    ensures DateOf(n).year == YearOf(n)
  {
  }

  /** Printed days sort as text the way the days do: text keys and day numbers are
      interchangeable. */
  lemma IsoOrder(n: int, m: int)
    requires n < m && 0 <= YearOf(n) && YearOf(m) <= 9999
    ensures LexLess(Iso(n), Iso(m))
  {
    hide YearStart, MonthStart, Iso, Value, YearOf, MonthOf, Fixed, LexLess, Pow, IsDayKey;
    YearOrder(n, m);
    IsoParts(n);
    IsoParts(m);
    YearOfDate(n);
    YearOfDate(m);
    DateOrder(n, m);
    MonthBounds(DateOf(n));
    MonthBounds(DateOf(m));
    PartsOrder(Iso(n), Iso(m), DateOf(n), DateOf(m));
  }

  predicate DateBefore(d: Date, e: Date) {
    d.year < e.year || (d.year == e.year && (d.month < e.month || (d.month == e.month && d.day < e.day)))
  }

  lemma DateOrder(n: int, m: int)
    requires n < m
    ensures DateBefore(DateOf(n), DateOf(m))
  {
    hide YearStart, MonthStart, YearOf, MonthOf;
    var d, e := DateOf(n), DateOf(m);
    YearOfDate(n);
    YearOfDate(m);
    YearOrder(n, m);
    if d.year == e.year && e.month < d.month { MonthsApart(Leap(d.year), e.month, d.month); }
  }

  lemma OneMore(s: string, t: string, n: nat)
    requires n < |s| && n < |t| && s[..n] == t[..n] && s[n] == t[n]
    ensures s[..n + 1] == t[..n + 1]
  {
    assert s[..n + 1] == s[..n] + [s[n]] && t[..n + 1] == t[..n] + [t[n]];
  }

  lemma TwoDigitsOrder(s: string, t: string, i: nat, a: nat, b: nat)
    requires i + 2 <= |s| && i + 2 <= |t| && s[..i] == t[..i] && a < b < 100
    requires s[i..i + 2] == Fixed(10, a, 2) && t[i..i + 2] == Fixed(10, b, 2)
    ensures LexLess(s, t)
  {
    hide Fixed, LexLess;
    Powers();
    FixedOrder(10, a, b, 2);
    LexAt(s, t, i, i + 2);
  }

  lemma PartsOrder(s: string, t: string, d: Date, e: Date)
    requires |s| == 10 && |t| == 10 && DateBefore(d, e)
    requires 0 <= d.year && e.year <= 9999 && 1 <= d.month <= 12 && 1 <= e.month <= 12 && 1 <= d.day <= 31
    requires 1 <= e.day <= 31
    requires s[..4] == Fixed(10, d.year, 4) && s[5..7] == Fixed(10, d.month, 2) && s[8..] == Fixed(10, d.day, 2)
    requires t[..4] == Fixed(10, e.year, 4) && t[5..7] == Fixed(10, e.month, 2) && t[8..] == Fixed(10, e.day, 2)
    requires s[4] == '-' == t[4] && s[7] == '-' == t[7]
    ensures LexLess(s, t)
  {
    hide Fixed, LexLess, Pow;
    if d.year < e.year {
      Powers();
      FixedOrder(10, d.year, e.year, 4);
      assert s[0..4] == s[..4] && t[0..4] == t[..4];
      LexAt(s, t, 0, 4);
    } else {
      OneMore(s, t, 4);
      if d.month < e.month {
        TwoDigitsOrder(s, t, 5, d.month, e.month);
      } else {
        assert s[..7] == s[..5] + s[5..7] && t[..7] == t[..5] + t[5..7];
        OneMore(s, t, 7);
        assert s[8..10] == s[8..] && t[8..10] == t[8..];
        TwoDigitsOrder(s, t, 8, d.day, e.day);
      }
    }
  }

  /* ---- weeks ---- */

  /** Sunday is 0; 1 January 1970 was a Thursday. */
  function Weekday(n: int): (dow: int)
    ensures 0 <= dow <= 6
  {
    (n + 4) % 7
  }

  predicate IsMonday(n: int) { Weekday(n) == 1 }

  function MondayOf(n: int): (monday: int)
    ensures IsMonday(monday) && monday <= n <= monday + 6
  {
    var dow := Weekday(n);
    n + if dow == 0 then -6 else 1 - dow
  }

  /** There is one Monday to a day, and the seven days from it share it. */
  lemma WeekIsMondayToSunday(n: int, k: int)
    ensures MondayOf(k) == MondayOf(n) <==> MondayOf(n) <= k <= MondayOf(n) + 6
    ensures IsMonday(k) && k <= n <= k + 6 ==> k == MondayOf(n)
  {
  }

  function MondayKey(s: string): (monday: string)
    requires IsDayKey(s)
  {
    Iso(MondayOf(ParseDay(s)))
  }

  function EndOfWeek(s: string): (sunday: string)
    requires IsDayKey(s)
  {
    Iso(ParseDay(s) + 6)
  }

  /** No key is read as a day before the year 100. */
  lemma KeysStartAt100(s: string)
    requires IsDayKey(s)
    ensures ParseDay(s) >= YearStart(100) - 32
  {
    hide YearStart, MonthStart, Value;
    var y, m, d := Value(10, s[..4]), Value(10, s[5..7]), Value(10, s[8..]);
    var full := if 0 <= y <= 99 then 1900 + y else y;
    if m == 0 {
      YearsApart(100, full);
      YearLength(full - 1);
      MonthEnds(full - 1);
    } else {
      YearsApart(100, full + (m - 1) / 12);
      MonthInYear(Leap(full + (m - 1) / 12), (m - 1) % 12 + 1);
    }
  }

  /** The Monday of a day, taken again, is the same Monday — unless it falls in the year 99,
      whose printed form is read as 1999. That is so for the first three days of the year
      100 and for what overflows back before them, and for no other day. */
  lemma MondayIdempotent(s: string)
    requires IsDayKey(s) && YearOf(ParseDay(s)) <= 9999
    ensures IsDayKey(MondayKey(s))
    ensures MondayKey(MondayKey(s)) == MondayKey(s) <==> ParseDay(s) >= YearStart(100) + 3
  {
    hide YearStart, Iso, Value, ParseDay, IsDayKey, YearOf;
    var n := ParseDay(s);
    var m := MondayOf(n);
    KeysStartAt100(s);
    YearOrder(m, n);
    EarlyMonday(m);
    IsoRoundTrip(m);
    var again := ParseDay(Iso(m));
    WeekIsMondayToSunday(m, m);
    FirstOf100();
    if YearOf(m) < 100 {
      YearsApart(100, 1900);
      MondayAfter(again);
      IsoDiffers(m, MondayOf(again));
    }
  }

  /** 1 January of the year 100 was a Friday. */
  lemma FirstOf100()
    ensures Weekday(YearStart(100)) == 5
  {
  }

  lemma EarlyMonday(m: int)
    requires m >= YearStart(100) - 38
    ensures YearOf(m) >= 99 && (YearOf(m) >= 100 <==> m >= YearStart(100))
  {
    hide YearStart, YearOf;
    YearLength(99);
    if m < YearStart(100) { YearIs(m, 99); } else if YearOf(m) < 100 { YearsApart(YearOf(m) + 1, 100); }
  }

  lemma MondayAfter(n: int)
    requires n >= YearStart(1900)
    ensures MondayOf(n) > YearStart(1899) > YearStart(100) + 7
  {
  }

  lemma IsoDiffers(n: int, m: int)
    requires n < m && 0 <= YearOf(n) <= 9999
    ensures Iso(n) != Iso(m)
  {
    hide YearStart, YearOf, LexLess;
    if YearOf(m) <= 9999 {
      IsoOrder(n, m);
      LexIrreflexive(Iso(n));
    } else {
      TornIsNoKey(m);
      IsoParts(n);
    }
  }

  lemma TornIsNoKey(n: int)
    requires YearOf(n) > 9999
    ensures !IsDayKey(Iso(n))
  {
    hide YearStart, YearOf, Fixed;
    YearOfDate(n);
    var s := Iso(n);
    assert s[..4][0] == '+';
  }

  /** The Sunday that closes a week, as far as the year 9999 reaches. */
  lemma EndOfWeekCloses(s: string)
    requires IsDayKey(s) && 100 <= YearOf(ParseDay(s))
    ensures IsDayKey(EndOfWeek(s)) <==> YearOf(ParseDay(s) + 6) <= 9999
    ensures IsDayKey(EndOfWeek(s)) ==> ParseDay(EndOfWeek(s)) == ParseDay(s) + 6
    ensures IsMonday(ParseDay(s)) ==>
              forall n :: MondayOf(n) == ParseDay(s) <==> ParseDay(s) <= n <= ParseDay(s) + 6
  {
    hide YearStart, Iso, Value, ParseDay, IsDayKey, YearOf;
    var n := ParseDay(s);
    YearOrder(n, n + 6);
    if YearOf(n + 6) <= 9999 { IsoRoundTrip(n + 6); } else { TornIsNoKey(n + 6); }
    forall k ensures IsMonday(n) ==> (MondayOf(k) == n <==> n <= k <= n + 6) {
      WeekIsMondayToSunday(n, n);
      WeekIsMondayToSunday(n, k);
    }
  }

  /* ---- week numbers ---- */

  /** The week's number, from how many days its Thursday is into its year. */
  function WeekNumber(s: string): (w: int)
    requires IsDayKey(s)
  {
    var thursday := ParseDay(s) + 3;
    (thursday - Utc(YearOf(thursday), 0, 1)) / 7 + 1
  }

  /** The year's first Thursday; the week holding it is week 1 (section 4.1.4 of ISO 8601). */
  function FirstThursday(y: int): (n: int)
    ensures Weekday(n) == 4 && YearStart(y) <= n < YearStart(y) + 7
  {
    ThursdayFrom(YearStart(y))
  }

  function ThursdayFrom(start: int): (n: int)
    ensures Weekday(n) == 4 && start <= n < start + 7
  {
    var dow := Weekday(start);
    start + if dow <= 4 then 4 - dow else 11 - dow
  }

  /** Weeks counted from the one with the first Thursday of the year its own Thursday is in. */
  function IsoWeek(monday: int): (w: int)
    requires IsMonday(monday)
  {
    (monday + 3 - FirstThursday(YearOf(monday + 3))) / 7 + 1
  }

  lemma ThursdayCount(thursday: int, start: int, first: int)
    requires Weekday(thursday) == 4 == Weekday(first) && start <= first < start + 7 && start <= thursday
    ensures (thursday - start) / 7 == (thursday - first) / 7 && (thursday - first) % 7 == 0 && first <= thursday
  {
  }

  lemma January(y: int)
    requires y >= 100
    ensures Utc(y, 0, 1) == YearStart(y)
  {
  }

  /** The number shown is the ISO one, for every Monday whose Thursday is not in the year 99. */
  lemma WeekNumberIsIso(s: string)
    requires IsDayKey(s) && IsMonday(ParseDay(s))
    ensures WeekNumber(s) == IsoWeek(ParseDay(s)) <==> YearOf(ParseDay(s) + 3) >= 100
  {
    hide YearStart, Value, ParseDay, IsDayKey, YearOf, Utc;
    var thursday := ParseDay(s) + 3;
    var y := YearOf(thursday);
    KeysStartAt100(s);
    EarlyMonday(thursday);
    ThursdayCount(thursday, YearStart(y), FirstThursday(y));
    if y >= 100 {
      January(y);
    } else {
      SecondJanuary(thursday);
    }
  }

  lemma SecondJanuary(thursday: int)
    requires YearOf(thursday) == 99
    ensures (thursday - Utc(99, 0, 1)) / 7 < 0
  {
    hide YearStart, YearOf;
    YearsApart(100, 1999);
    assert Utc(99, 0, 1) == YearStart(1999);
  }

  /** A week by its Thursday: how far that is into its year. */
  lemma WeekInYear(monday: int)
    requires IsMonday(monday)
    ensures var first := FirstThursday(YearOf(monday + 3));
            && first <= monday + 3 && IsoWeek(monday) == (monday + 3 - first) / 7 + 1 && (monday + 3 - first) % 7 == 0
            && monday + 3 < YearStart(YearOf(monday + 3)) + 366 && YearStart(YearOf(monday + 3)) <= first
  {
    hide YearStart, YearOf, FirstThursday;
    var y := YearOf(monday + 3);
    YearLength(y);
    ThursdayCount(monday + 3, YearStart(y), FirstThursday(y));
  }

  lemma NextWeekInYear(monday: int)
    requires IsMonday(monday)
    ensures var y, z := YearOf(monday + 3), YearOf(monday + 10);
            y <= z && (z > y ==> monday + 10 < YearStart(z) + 7)
  {
    hide YearStart, YearOf, FirstThursday, IsoWeek;
    var y, z := YearOf(monday + 3), YearOf(monday + 10);
    YearOrder(monday + 3, monday + 10);
    if z > y {
      assert monday + 3 < YearStart(y + 1);
      YearsApart(y + 1, z);
    }
  }

  /** Week numbers run from 1 to 53; they go up by one each Monday and start again at 1 with
      the week that holds the year's first Thursday. */
  lemma WeeksRestart(monday: int)
    requires IsMonday(monday)
    ensures 1 <= IsoWeek(monday) <= 53
    ensures IsoWeek(monday) == 1 <==> monday <= FirstThursday(YearOf(monday + 3)) <= monday + 6
    ensures IsMonday(monday + 7)
    ensures IsoWeek(monday + 7) == if YearOf(monday + 10) == YearOf(monday + 3) then IsoWeek(monday) + 1 else 1
  {
    hide YearStart, YearOf, FirstThursday, IsoWeek;
    WeekInYear(monday);
    WeekInYear(monday + 7);
    NextWeekInYear(monday);
  }
}
