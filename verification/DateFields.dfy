/** The date a person types: read day first in the forms a farm writes, printed back, and the
    grid of days it is picked from. */
module DateFields {
  import opened Text
  import opened Calendar

  /* ---- days that exist ---- */

  /** The day before the first of the next month, as the runtime counts it. */
  function DaysInMonth(year: int, monthIndex: int): (n: int) { DateOf(Utc(year, monthIndex + 1, 0)).day }

  function IsValidDay(iso: string): (b: bool) {
    IsDayKey(iso)
    && var y, m, d := Value(10, iso[..4]), Value(10, iso[5..7]), Value(10, iso[8..]);
       1 <= m <= 12 && 1 <= d && d <= DaysInMonth(y, m - 1)
  }

  lemma LastOfMonth(y: int, m: int)
    requires y >= 100 && 1 <= m <= 12
    ensures DaysInMonth(y, m - 1) == DaysIn(y, m)
  {
    hide YearStart, MonthStart, DateOf;
    var last := Date(y, m, DaysIn(y, m));
    MonthInYear(Leap(y), m);
    if m < 12 {
      assert m / 12 == 0 && m % 12 == m;
    } else {
      assert 12 / 12 == 1 && 12 % 12 == 0;
      YearLength(y);
      MonthEnds(y);
      MonthEnds(y + 1);
    }
    assert Utc(y, m, 0) == DayOf(last);
    DateIs(last);
  }

  /** From the year 100 on, a key is accepted exactly when its day exists. */
  lemma ValidExactly(iso: string)
    requires IsDayKey(iso) && Value(10, iso[..4]) >= 100
    ensures IsValidDay(iso) <==> Exists(Date(Value(10, iso[..4]), Value(10, iso[5..7]), Value(10, iso[8..])))
  {
    hide Value, DaysIn, DaysInMonth;
    var y, m := Value(10, iso[..4]), Value(10, iso[5..7]);
    if 1 <= m <= 12 { LastOfMonth(y, m); }
  }

  /* ---- printing ---- */

  function FormatDate(iso: string): (s: string)
    requires IsDayKey(iso)
  {
    var d := DateOf(ParseDay(iso));
    MonthBounds(d);
    PadStart(Digits(d.day), 2) + "/" + PadStart(Digits(d.month), 2) + "/" + Year(d.year)
  }

  function Year(y: int): (s: string) { if y < 0 then "-" + Digits(-y) else Digits(y) }

  function ToTypedDay(iso: string): (s: string) { if IsValidDay(iso) then FormatDate(iso) else "" }

  /* ---- reading ---- */

  predicate IsSeparator(c: char) { c == '/' || c == '-' || c == '.' || IsSpace(c) }

  /** Slashes, dashes, points and blanks, by code point. */
  lemma SeparatorsExactly(c: char)
    ensures IsSeparator(c) <==> c as int in {45, 46, 47} || IsSpace(c)
  {
  }

  function TakePart(s: string): (r: (string, string))
    ensures |r.0| + |r.1| == |s|
  {
    hide IsSeparator;
    if s == "" || IsSeparator(s[0]) then ("", s)
    else var r := TakePart(s[1..]); ([s[0]] + r.0, r.1)
  }

  /** Split on runs of separators, empty parts dropped. */
  function Parts(s: string): (ps: seq<string>)
    decreases |s|
  {
    if s == "" then []
    else if IsSeparator(s[0]) then Parts(s[1..])
    else
      var (part, rest) := TakePart(s);
      assert |part| > 0;
      [part] + Parts(rest)
  }

  function Century(refYear: int, y: int): (year: int) { if y < 100 then refYear / 100 * 100 + y else y }

  /** A day, a month and a year as numbers: the year completed, then the three put together. */
  function Assemble(d: nat, m: nat, y: int, refYear: int): (iso: Option<string>) {
    var year := Century(refYear, y);
    if year < 1900 || year > 2200 then None
    else
      var iso := PadStart(Digits(year), 4) + "-" + PadStart(Digits(m), 2) + "-" + PadStart(Digits(d), 2);
      if IsValidDay(iso) then Some(iso) else None
  }

  predicate AllNumbers(ps: seq<string>) { forall i :: 0 <= i < |ps| ==> ps[i] != "" && AllDigits(10, ps[i]) }

  function ParseTypedDay(raw: string, refYear: int): (iso: Option<string>) {
    var cleaned := Trim(raw);
    var parts := Parts(cleaned);
    if cleaned == "" then None
    else if |parts| >= 2 && AllNumbers(parts) then
      Assemble(Value(10, parts[0]), Value(10, parts[1]), if |parts| >= 3 then Value(10, parts[2]) else refYear, refYear)
    else if AllDigits(10, cleaned) && (|cleaned| == 8 || |cleaned| == 6) then
      Assemble(Value(10, cleaned[..2]), Value(10, cleaned[2..4]), Value(10, cleaned[4..]), refYear)
    else None
  }

  /* ---- what is read ---- */

  lemma PadWide(n: nat, w: nat)
    requires w >= 1 && n >= Pow(10, w)
    ensures |PadStart(Digits(n), w)| > w
  {
    if |Digits(n)| <= w { DigitsShort(n, w); }
  }

  lemma {:induction false} DigitsShort(n: nat, w: nat)
    requires |Digits(n)| <= w
    ensures n < Pow(10, w)
  {
    hide Value;
    DigitsValue(n);
    ValueFixed(10, Digits(n));
    PowMono(|Digits(n)|, w);
  }

  lemma {:induction false} PowMono(a: nat, b: nat)
    requires a <= b
    ensures Pow(10, a) <= Pow(10, b)
  {
    if a < b { PowMono(a, b - 1); }
  }

  /** A key put together from numbers reads back as those numbers; numbers too wide for it
      make no key at all. */
  lemma KeyParts(y: nat, m: nat, d: nat)
    requires 1000 <= y <= 9999
    ensures var iso := PadStart(Digits(y), 4) + "-" + PadStart(Digits(m), 2) + "-" + PadStart(Digits(d), 2);
            && (IsDayKey(iso) <==> m < 100 && d < 100)
            && (IsDayKey(iso) ==> Value(10, iso[..4]) == y && Value(10, iso[5..7]) == m && Value(10, iso[8..]) == d)
            && (IsDayKey(iso) ==> iso == Fixed(10, y, 4) + "-" + Fixed(10, m, 2) + "-" + Fixed(10, d, 2))
  {
    Powers();
    hide Value, Pow, Digits, Fixed;
    PadDigits(y, 4);
    var a, b, c := PadStart(Digits(y), 4), PadStart(Digits(m), 2), PadStart(Digits(d), 2);
    hide PadStart;
    var iso := a + "-" + b + "-" + c;
    if m < 100 && d < 100 {
      PadDigits(m, 2);
      PadDigits(d, 2);
      FixedValue(10, y, 4);
      FixedValue(10, m, 2);
      FixedValue(10, d, 2);
      assert iso[..4] == a && iso[5..7] == b && iso[8..] == c;
    } else {
      if m >= 100 { PadWide(m, 2); }
      if d >= 100 { PadWide(d, 2); }
      assert |iso| > 10;
    }
  }

  /** Three numbers make a day exactly when that day exists and its year, completed from the
      reference year, is between 1900 and 2200: no month or day is ever guessed. */
  lemma AssembleExactly(d: nat, m: nat, y: int, refYear: int)
    ensures var date := Date(Century(refYear, y), m, d);
            Assemble(d, m, y, refYear)
            == if 1900 <= date.year <= 2200 && Exists(date) then Some(Iso(DayOf(date))) else None
  {
    hide Value, Pow, Fixed, PadStart, Digits, IsValidDay, Iso, YearOf, YearStart, MonthStart, Exists, IsDayKey;
    var date := Date(Century(refYear, y), m, d);
    if 1900 <= date.year <= 2200 {
      KeyParts(date.year, m, d);
      var iso := PadStart(Digits(date.year), 4) + "-" + PadStart(Digits(m), 2) + "-" + PadStart(Digits(d), 2);
      MonthBounds(date);
      if IsDayKey(iso) {
        ValidExactly(iso);
        if Exists(date) { IsoIs(date); }
      } else {
        NotValid(iso);
      }
    }
  }

  lemma NotValid(iso: string)
    requires !IsDayKey(iso)
    ensures !IsValidDay(iso)
  {
  }

  lemma IsoIs(d: Date)
    requires Exists(d) && 0 <= d.year <= 9999
    ensures Iso(DayOf(d)) == Fixed(10, d.year, 4) + "-" + Fixed(10, d.month, 2) + "-" + Fixed(10, d.day, 2)
  {
    hide YearStart, MonthStart, Fixed, DateOf;
    DateIs(d);
    InYear(d);
    YearIs(DayOf(d), d.year);
  }

  /** Whatever is typed, what comes back is a day that exists. */
  lemma TypedDayExists(raw: string, refYear: int)
    ensures var iso := ParseTypedDay(raw, refYear);
            iso.Some? ==> IsValidDay(iso.value)
                          && exists d :: Exists(d) && 1900 <= d.year <= 2200 && iso.value == Iso(DayOf(d))
  {
    hide Value, IsValidDay, Iso, Parts, Exists, Century, DayOf;
    var cleaned := Trim(raw);
    var parts := Parts(cleaned);
    if cleaned == "" {
    } else if |parts| >= 2 && AllNumbers(parts) {
      var y := if |parts| >= 3 then Value(10, parts[2]) else refYear;
      AssembleExactly(Value(10, parts[0]), Value(10, parts[1]), y, refYear);
      assert ParseTypedDay(raw, refYear) == Assemble(Value(10, parts[0]), Value(10, parts[1]), y, refYear);
    } else if AllDigits(10, cleaned) && (|cleaned| == 8 || |cleaned| == 6) {
      AssembleExactly(Value(10, cleaned[..2]), Value(10, cleaned[2..4]), Value(10, cleaned[4..]), refYear);
    }
  }

  /* ---- the forms a day is written in ---- */

  lemma DigitIsNoSeparator(c: char)
    requires IsDigit(10, c)
    ensures !IsSeparator(c) && !IsSpace(c)
  {
  }

  lemma {:induction false} TakeNumber(n: string, rest: string)
    requires AllDigits(10, n) && (rest != "" ==> IsSeparator(rest[0]))
    ensures TakePart(n + rest) == (n, rest)
  {
    if n == "" {
      assert n + rest == rest;
    } else {
      DigitIsNoSeparator(n[0]);
      assert (n + rest)[1..] == n[1..] + rest;
      TakeNumber(n[1..], rest);
      assert [n[0]] + n[1..] == n;
    }
  }

  lemma PartsOfNumber(n: string, rest: string)
    requires n != "" && AllDigits(10, n) && (rest != "" ==> IsSeparator(rest[0]))
    ensures Parts(n + rest) == [n] + Parts(rest)
  {
    DigitIsNoSeparator(n[0]);
    TakeNumber(n, rest);
    assert (n + rest)[0] == n[0];
  }

  lemma SkipSeparator(c: char, rest: string)
    requires IsSeparator(c)
    ensures Parts([c] + rest) == Parts(rest)
  {
    assert ([c] + rest)[1..] == rest;
  }

  lemma BetweenDigits(s: string)
    requires s != "" && IsDigit(10, s[0]) && IsDigit(10, s[|s| - 1])
    ensures Trim(s) == s
  {
    DigitIsNoSeparator(s[0]);
    DigitIsNoSeparator(s[|s| - 1]);
    TrimKeeps(s);
  }

  lemma ThreeParts(a: string, b: string, c: string, p: char, q: char)
    requires a != "" && b != "" && c != "" && AllDigits(10, a) && AllDigits(10, b) && AllDigits(10, c) && IsSeparator(p)
    requires IsSeparator(q)
    ensures Parts(a + [p] + b + [q] + c) == [a, b, c]
  {
    hide Parts, IsSeparator, AllDigits;
    var s := a + [p] + b + [q] + c;
    assert s == a + ([p] + (b + ([q] + c)));
    PartsOfNumber(a, [p] + (b + ([q] + c)));
    SkipSeparator(p, b + ([q] + c));
    PartsOfNumber(b, [q] + c);
    SkipSeparator(q, c);
    PartsOfNumber(c, "");
    assert c + "" == c;
    NoParts();
  }

  lemma NoParts()
    ensures Parts("") == []
  {
  }

  /** Slashes, dashes, dots and spaces read the same, in any mix. */
  lemma AnySeparator(a: string, b: string, c: string, p: char, q: char, refYear: int)
    requires a != "" && b != "" && c != "" && AllDigits(10, a) && AllDigits(10, b) && AllDigits(10, c) && IsSeparator(p)
    requires IsSeparator(q)
    ensures ParseTypedDay(a + [p] + b + [q] + c, refYear) == Assemble(Value(10, a), Value(10, b), Value(10, c), refYear)
  {
    var s := a + [p] + b + [q] + c;
    NumbersAtEnds(a, [p] + b + [q], c);
    assert a + ([p] + b + [q]) + c == s;
    hide Parts, IsSeparator, Assemble, Value, Trim, IsDigit, AllDigits;
    ThreeParts(a, b, c, p, q);
    assert AllNumbers([a, b, c]) by { Numbers(a, b, c); }
  }

  lemma Numbers(a: string, b: string, c: string)
    requires a != "" && b != "" && c != "" && AllDigits(10, a) && AllDigits(10, b) && AllDigits(10, c)
    ensures AllNumbers([a, b, c])
  {
    hide AllDigits;
  }

  lemma NumbersAtEnds(a: string, middle: string, c: string)
    requires a != "" && c != "" && AllDigits(10, a) && AllDigits(10, c)
    ensures Trim(a + middle + c) == a + middle + c && a + middle + c != ""
  {
    hide Trim;
    var s := a + middle + c;
    assert s[0] == a[0] && s[|s| - 1] == c[|c| - 1];
    BetweenDigits(s);
  }

  /** Eight digits in a row are the same day with the separators left out. */
  lemma EightDigits(a: string, b: string, c: string, refYear: int)
    requires |a| == 2 && |b| == 2 && |c| == 4 && AllDigits(10, a) && AllDigits(10, b) && AllDigits(10, c)
    ensures ParseTypedDay(a + b + c, refYear) == Assemble(Value(10, a), Value(10, b), Value(10, c), refYear)
  {
    hide Parts, IsSeparator, Assemble, Value, Trim;
    var s := a + b + c;
    BetweenDigits(s);
    PartsOfNumber(s, "");
    NoParts();
    assert s + "" == s;
    assert s[..2] == a && s[2..4] == b && s[4..] == c;
  }

  /** A two-digit year is of the reference year's century, and a missing one is that year. */
  lemma ShortForms(a: string, b: string, p: char, refYear: int)
    requires a != "" && b != "" && AllDigits(10, a) && AllDigits(10, b) && IsSeparator(p) && refYear >= 100
    ensures ParseTypedDay(a + [p] + b, refYear) == Assemble(Value(10, a), Value(10, b), refYear, refYear)
    ensures Century(refYear, refYear) == refYear
    ensures forall y :: 0 <= y < 100 ==> Century(refYear, y) / 100 == refYear / 100
  {
    hide Parts, IsSeparator, Assemble, Value, Trim;
    var s := a + [p] + b;
    assert s[0] == a[0] && s[|s| - 1] == b[|b| - 1];
    BetweenDigits(s);
    assert s == a + ([p] + b);
    PartsOfNumber(a, [p] + b);
    SkipSeparator(p, b);
    PartsOfNumber(b, "");
    assert b + "" == b;
    NoParts();
  }

  /** A date as the field prints it. */
  lemma Typed(d: Date)
    requires Exists(d) && 1000 <= d.year <= 9999
    ensures ToTypedDay(Iso(DayOf(d))) == Fixed(10, d.day, 2) + "/" + Fixed(10, d.month, 2) + "/" + Fixed(10, d.year, 4)
  {
    Powers();
    hide Value, Pow, Fixed, PadStart, Digits, Iso, YearOf, YearStart, MonthStart, IsDayKey, ParseDay, IsValidDay,
         Exists;
    MonthBounds(d);
    var n := DayOf(d);
    InYear(d);
    YearIs(n, d.year);
    DateIs(d);
    IsoRoundTrip(n);
    IsoParts(n);
    ValidExactly(Iso(n));
    PadDigits(d.day, 2);
    PadDigits(d.month, 2);
    PadDigits(d.year, 4);
    FourDigits(d.year);
  }

  lemma FourDigits(y: nat)
    requires 1000 <= y <= 9999
    ensures PadStart(Digits(y), 4) == Digits(y)
  {
    Powers();
    assert Pow(10, 3) == 1000;
    if |Digits(y)| < 4 { DigitsShort(y, 3); }
  }

  /** Every day from 1900 to 2200 survives being printed in the field and read back, whatever
      year is assumed. */
  lemma TypedRoundTrip(d: Date, refYear: int)
    requires Exists(d) && 1900 <= d.year <= 2200
    ensures ParseTypedDay(ToTypedDay(Iso(DayOf(d))), refYear) == Some(Iso(DayOf(d)))
  {
    Powers();
    hide Value, Pow, Fixed, Iso, YearStart, MonthStart, ParseTypedDay, ToTypedDay, Assemble, DayOf;
    Typed(d);
    MonthBounds(d);
    FixedValue(10, d.day, 2);
    FixedValue(10, d.month, 2);
    FixedValue(10, d.year, 4);
    AnySeparator(Fixed(10, d.day, 2), Fixed(10, d.month, 2), Fixed(10, d.year, 4), '/', '/', refYear);
    AssembleExactly(d.day, d.month, d.year, refYear);
  }

  /* ---- the grid ---- */

  function Weeks(from: int): (days: seq<string>)
    ensures |days| == 42 && forall i :: 0 <= i < 42 ==> days[i] == Iso(from + i)
  {
    hide Iso;
    seq(42, i => Iso(from + i))
  }

  function MonthGrid(year: int, monthIndex: int): (days: seq<string>)
    ensures |days| == 42
    ensures forall i :: 0 <= i < 42 ==> days[i] == Iso(MondayOf(Utc(year, monthIndex, 1)) + i)
  {
    hide *;
    Weeks(MondayOf(Utc(year, monthIndex, 1)))
  }

  /** Six weeks from a Monday, with every day of the month among them. */
  lemma GridCoversMonth(d: Date)
    requires Exists(d) && d.year >= 100
    ensures var first := DayOf(Date(d.year, d.month, 1));
            && IsMonday(MondayOf(first)) && MondayOf(first) <= first
            && 0 <= DayOf(d) - MondayOf(first) < 42
            && MonthGrid(d.year, d.month - 1)[DayOf(d) - MondayOf(first)] == Iso(DayOf(d))
  {
    hide YearStart, MonthStart, Iso;
    MonthBounds(d);
    assert (d.month - 1) / 12 == 0 && (d.month - 1) % 12 == d.month - 1;
    assert Utc(d.year, d.month - 1, 1) == DayOf(Date(d.year, d.month, 1));
  }
}
