/** The routes that change a price: which weeks a change reaches, what every history keeps, and
    what that makes of the copy on a device. */
module PriceWrites {
  import opened Text
  import opened PriceRules
  import opened DevicePrices
  import opened Calendar

  datatype Write =
    | PutWeek(monday: Day, cents: Cents)
    | PutBase(monday: Day, cents: Cents, thisWeek: Day)
    | PutSpecial(persona: bool, target: Id, monday: Day, price: Option<Cents>)
    | DropSpecial(persona: bool, target: Id, monday: Day)
    | ReadBase

  /** Where a history begins the first time it is read: Monday 3 January 2000. */
  const SINCE_ALWAYS := 10959

  /* ---- one history ---- */

  /** Change the row of that date, or add one. */
  function PutRow(es: seq<Entry>, e: Entry): (out: seq<Entry>) {
    if es == [] then [e]
    else if es[0].validFrom == e.validFrom then [e] + es[1..]
    else [es[0]] + PutRow(es[1..], e)
  }

  function DropRow(es: seq<Entry>, date: Day): (out: seq<Entry>) {
    if es == [] then []
    else if es[0].validFrom == date then DropRow(es[1..], date)
    else [es[0]] + DropRow(es[1..], date)
  }

  ghost predicate DistinctDates(es: seq<Entry>) {
    forall i, j :: 0 <= i < j < |es| ==> es[i].validFrom != es[j].validFrom
  }

  lemma DistinctIsOnePerDate(es: seq<Entry>)
    requires DistinctDates(es)
    ensures OnePerDate(es)
  {
    forall e, f | e in es && f in es && e.validFrom == f.validFrom ensures e == f {
      var i, j :| 0 <= i < |es| && 0 <= j < |es| && es[i] == e && es[j] == f;
    }
  }

  lemma TailDistinct(es: seq<Entry>)
    requires DistinctDates(es) && es != []
    ensures DistinctDates(es[1..]) && forall e :: e in es[1..] ==> e.validFrom != es[0].validFrom
  {
    forall e | e in es[1..] ensures e.validFrom != es[0].validFrom {
      var k :| 0 <= k < |es[1..]| && es[1..][k] == e;
      assert es[k + 1] == e;
    }
  }

  lemma ConsDistinct(e: Entry, es: seq<Entry>)
    requires DistinctDates(es) && forall x :: x in es ==> x.validFrom != e.validFrom
    ensures DistinctDates([e] + es)
  {
  }

  lemma {:induction false} PutRowIs(es: seq<Entry>, e: Entry)
    requires DistinctDates(es)
    ensures DistinctDates(PutRow(es, e))
    ensures forall x :: x in PutRow(es, e) <==> x == e || (x in es && x.validFrom != e.validFrom)
  {
    if es != [] {
      TailDistinct(es);
      assert es == [es[0]] + es[1..];
      if es[0].validFrom == e.validFrom {
        ConsDistinct(e, es[1..]);
      } else {
        PutRowIs(es[1..], e);
        ConsDistinct(es[0], PutRow(es[1..], e));
      }
    }
  }

  lemma {:induction false} DropRowIs(es: seq<Entry>, date: Day)
    requires DistinctDates(es)
    ensures DistinctDates(DropRow(es, date))
    ensures forall x :: x in DropRow(es, date) <==> x in es && x.validFrom != date
  {
    if es != [] {
      TailDistinct(es);
      assert es == [es[0]] + es[1..];
      DropRowIs(es[1..], date);
      if es[0].validFrom != date { ConsDistinct(es[0], DropRow(es[1..], date)); }
    }
  }

  /** A dated change reaches every day from its own until the next row's, and no other. */
  lemma ChangeReaches(es: seq<Entry>, e: Entry, day: Day)
    requires DistinctDates(es)
    ensures var was := InForce(es, day);
            InForce(PutRow(es, e), day)
            == if e.validFrom <= day && (was.None? || was.value.validFrom <= e.validFrom) then Some(e) else was
  {
    var now, was := InForce(PutRow(es, e), day), InForce(es, day);
    PutRowIs(es, e);
    DistinctIsOnePerDate(es);
    DistinctIsOnePerDate(PutRow(es, e));
    InForceIsLatest(es, day);
    InForceIsLatest(PutRow(es, e), day);
    assert e in PutRow(es, e);
    if was.Some? && was.value.validFrom != e.validFrom { assert was.value in PutRow(es, e); }
  }

  /* ---- the special prices ---- */

  function PutOf(rows: seq<Special>, target: Id, e: Entry): (out: seq<Special>) {
    if rows == [] then [Special(target, e)]
    else if rows[0].target == target && rows[0].entry.validFrom == e.validFrom then [Special(target, e)] + rows[1..]
    else [rows[0]] + PutOf(rows[1..], target, e)
  }

  function DropOf(rows: seq<Special>, target: Id, monday: Day): (out: seq<Special>) {
    if rows == [] then []
    else if rows[0].target == target && rows[0].entry.validFrom == monday then DropOf(rows[1..], target, monday)
    else [rows[0]] + DropOf(rows[1..], target, monday)
  }

  /** The target's own history changes as a history does; everybody else's stays. */
  lemma {:induction false} PutOfIs(rows: seq<Special>, target: Id, e: Entry, id: Id)
    ensures PricesOf(PutOf(rows, target, e), id)
            == if id == target then PutRow(PricesOf(rows, id), e) else PricesOf(rows, id)
  {
    if rows == [] {
      assert [Special(target, e)][1..] == [];
    } else {
      PutOfIs(rows[1..], target, e, id);
      var out := PutOf(rows, target, e);
      if rows[0].target == target && rows[0].entry.validFrom == e.validFrom {
        assert out[1..] == rows[1..];
      } else {
        assert out[1..] == PutOf(rows[1..], target, e);
      }
      var rest := PricesOf(rows[1..], id);
      if rows[0].target == id { assert ([rows[0].entry] + rest)[1..] == rest; }
    }
  }

  lemma {:induction false} DropOfIs(rows: seq<Special>, target: Id, monday: Day, id: Id)
    ensures PricesOf(DropOf(rows, target, monday), id)
            == if id == target then DropRow(PricesOf(rows, id), monday) else PricesOf(rows, id)
  {
    if rows != [] {
      DropOfIs(rows[1..], target, monday, id);
      var rest := PricesOf(rows[1..], id);
      if rows[0].target == id { assert ([rows[0].entry] + rest)[1..] == rest; }
      if !(rows[0].target == target && rows[0].entry.validFrom == monday) {
        assert DropOf(rows, target, monday)[1..] == DropOf(rows[1..], target, monday);
      }
    }
  }

  /* ---- the week overrides ---- */

  function PutWeekRow(weeks: seq<WeekRow>, row: WeekRow): (out: seq<WeekRow>) {
    if weeks == [] then [row]
    else if weeks[0].weekStart == row.weekStart then [row] + weeks[1..]
    else [weeks[0]] + PutWeekRow(weeks[1..], row)
  }

  /** A week's price is that week's alone. */
  lemma {:induction false} PutWeekIs(weeks: seq<WeekRow>, row: WeekRow, m: Day)
    ensures Override(PutWeekRow(weeks, row), m) == if m == row.weekStart then Some(row.price) else Override(weeks, m)
    ensures forall w :: w in PutWeekRow(weeks, row) ==> w == row || w in weeks
  {
    var out := PutWeekRow(weeks, row);
    if weeks == [] {
      assert out[1..] == [];
    } else {
      PutWeekIs(weeks[1..], row, m);
      assert weeks == [weeks[0]] + weeks[1..];
      if weeks[0].weekStart == row.weekStart {
        assert out[1..] == weeks[1..];
      } else {
        assert out[1..] == PutWeekRow(weeks[1..], row);
      }
    }
  }

  /* ---- the routes ---- */

  /** `basePricesOf`: a history never read before starts with the farm's price. */
  function Seeded(book: Book): (base: seq<Entry>) {
    NewestFirstOf(if book.base == [] then [Entry(SINCE_ALWAYS, Some(if book.farm.Some? then book.farm.value else 0))]
                  else book.base)
  }

  function CurrentOf(base: seq<Entry>, farm: Option<Cents>, thisWeek: Day): (p: Option<Cents>) {
    var row := FirstApplying(NewestFirstOf(base), thisWeek);
    if farm.Some? && row.Some? && row.value.price.Some? then row.value.price else farm
  }

  /** One route. A date that is not a Monday or a price that is not positive changes nothing. */
  function Apply(book: Book, w: Write): (b: Book) {
    match w
    case PutWeek(m, c) => if IsMonday(m) && c > 0 then book.(weeks := PutWeekRow(book.weeks, WeekRow(m, c))) else book
    case PutBase(m, c, thisWeek) =>
      if IsMonday(m) && c > 0 then
        var base := PutRow(Seeded(book), Entry(m, Some(c)));
        book.(base := base, farm := CurrentOf(base, book.farm, thisWeek))
      else book
    case PutSpecial(persona, target, m, price) =>
      if !IsMonday(m) || (price.Some? && price.value <= 0) then book
      else if persona then book.(employees := PutOf(book.employees, target, Entry(m, price)))
      else book.(plots := PutOf(book.plots, target, Entry(m, price)))
    case DropSpecial(persona, target, m) =>
      if !IsMonday(m) then book
      else if persona then book.(employees := DropOf(book.employees, target, m))
      else book.(plots := DropOf(book.plots, target, m))
    case ReadBase => book.(base := Seeded(book))
  }

  function ApplyAll(book: Book, ws: seq<Write>): (b: Book) {
    if ws == [] then book else Apply(ApplyAll(book, ws[..|ws| - 1]), ws[|ws| - 1])
  }

  /* ---- the same rows, changed where they are ---- */

  function DateIndex(es: seq<Entry>, date: Day): (k: Option<nat>)
    ensures k.Some? ==> k.value < |es| && es[k.value].validFrom == date
  {
    if es == [] then None
    else if es[0].validFrom == date then Some(0)
    else
      var k := DateIndex(es[1..], date);
      if k.Some? then Some(k.value + 1) else None
  }

  lemma {:induction false} PutRowAtIndex(es: seq<Entry>, e: Entry)
    ensures var k := DateIndex(es, e.validFrom);
            PutRow(es, e) == if k.Some? then es[k.value := e] else es + [e]
  {
    if es != [] { PutRowAtIndex(es[1..], e); }
  }

  function SpecialIndex(rows: seq<Special>, target: Id, date: Day): (k: Option<nat>)
    ensures k.Some? ==> k.value < |rows| && rows[k.value].target == target && rows[k.value].entry.validFrom == date
  {
    if rows == [] then None
    else if rows[0].target == target && rows[0].entry.validFrom == date then Some(0)
    else
      var k := SpecialIndex(rows[1..], target, date);
      if k.Some? then Some(k.value + 1) else None
  }

  lemma {:induction false} PutOfAtIndex(rows: seq<Special>, target: Id, e: Entry)
    ensures var k := SpecialIndex(rows, target, e.validFrom);
            PutOf(rows, target, e)
            == if k.Some? then rows[k.value := Special(target, e)] else rows + [Special(target, e)]
  {
    if rows != [] { PutOfAtIndex(rows[1..], target, e); }
  }

  function WeekIndex(weeks: seq<WeekRow>, monday: Day): (k: Option<nat>)
    ensures k.Some? ==> k.value < |weeks| && weeks[k.value].weekStart == monday
  {
    if weeks == [] then None
    else if weeks[0].weekStart == monday then Some(0)
    else
      var k := WeekIndex(weeks[1..], monday);
      if k.Some? then Some(k.value + 1) else None
  }

  lemma {:induction false} PutWeekAtIndex(weeks: seq<WeekRow>, row: WeekRow)
    ensures var k := WeekIndex(weeks, row.weekStart);
            PutWeekRow(weeks, row) == if k.Some? then weeks[k.value := row] else weeks + [row]
  {
    if weeks != [] { PutWeekAtIndex(weeks[1..], row); }
  }

  lemma {:induction false} DropOfKeepsLength(rows: seq<Special>, target: Id, date: Day)
    ensures |DropOf(rows, target, date)| <= |rows|
    ensures |DropOf(rows, target, date)| == |rows|
       <==> forall r :: r in rows ==> r.target != target || r.entry.validFrom != date
    ensures |DropOf(rows, target, date)| == |rows| ==> DropOf(rows, target, date) == rows
  {
    if rows != [] {
      assert rows == [rows[0]] + rows[1..];
      DropOfKeepsLength(rows[1..], target, date);
    }
  }

  /* ---- what they keep ---- */

  ghost predicate BaseKept(base: seq<Entry>) { DistinctDates(base) && forall e :: e in base ==> e.price.Some? }

  ghost predicate SpecialsKept(rows: seq<Special>) { forall id :: DistinctDates(PricesOf(rows, id)) }

  ghost predicate WeeksKept(weeks: seq<WeekRow>) { forall w :: w in weeks ==> w.price > 0 }

  ghost predicate Kept(book: Book) {
    BaseKept(book.base) && SpecialsKept(book.employees) && SpecialsKept(book.plots) && WeeksKept(book.weeks)
  }

  lemma {:induction false} InsertNewestDistinct(es: seq<Entry>, e: Entry)
    requires DistinctDates(es) && forall x :: x in es ==> x.validFrom != e.validFrom
    ensures DistinctDates(InsertNewest(es, e)) && forall x :: x in InsertNewest(es, e) <==> x in es || x == e
  {
    if es != [] {
      var n := |es| - 1;
      assert es == es[..n] + [es[n]];
      InsertNewestDistinct(es[..n], e);
      var front := InsertNewest(es[..n], e);
      if es[n].validFrom < e.validFrom {
        forall i | 0 <= i < |front| ensures front[i].validFrom != es[n].validFrom {
          assert front[i] in front;
          if front[i] != e { var j :| 0 <= j < n && es[j] == front[i]; }
        }
      }
    }
  }

  lemma {:induction false} SortedDistinct(base: seq<Entry>)
    requires DistinctDates(base)
    ensures DistinctDates(NewestFirstOf(base)) && SameEntries(base, NewestFirstOf(base))
  {
    if base != [] {
      var n := |base| - 1;
      assert base == base[..n] + [base[n]];
      SortedDistinct(base[..n]);
      forall x | x in NewestFirstOf(base[..n]) ensures x.validFrom != base[n].validFrom {
        var j :| 0 <= j < n && base[j] == x;
      }
      InsertNewestDistinct(NewestFirstOf(base[..n]), base[n]);
    }
  }

  lemma SeededKept(book: Book)
    requires BaseKept(book.base)
    ensures BaseKept(Seeded(book)) && (book.base != [] ==> SameEntries(book.base, Seeded(book)))
    ensures book.base == [] ==> exists e :: e in Seeded(book) && e.validFrom == SINCE_ALWAYS
  {
    var seed := Entry(SINCE_ALWAYS, Some(if book.farm.Some? then book.farm.value else 0));
    var base := if book.base == [] then [seed] else book.base;
    SortedDistinct(base);
    if book.base == [] { assert seed in base; }
  }

  lemma PutOfKept(rows: seq<Special>, target: Id, e: Entry)
    requires SpecialsKept(rows)
    ensures SpecialsKept(PutOf(rows, target, e))
  {
    hide PricesOf, DistinctDates;
    forall id ensures DistinctDates(PricesOf(PutOf(rows, target, e), id)) {
      PutOfIs(rows, target, e, id);
      PutRowIs(PricesOf(rows, id), e);
    }
  }

  lemma DropOfKept(rows: seq<Special>, target: Id, monday: Day)
    requires SpecialsKept(rows)
    ensures SpecialsKept(DropOf(rows, target, monday))
  {
    hide PricesOf, DistinctDates;
    forall id ensures DistinctDates(PricesOf(DropOf(rows, target, monday), id)) {
      DropOfIs(rows, target, monday, id);
      DropRowIs(PricesOf(rows, id), monday);
    }
  }

  lemma WriteKeeps(book: Book, w: Write)
    requires Kept(book)
    ensures Kept(Apply(book, w))
  {
    hide BaseKept, SpecialsKept, IsMonday, CurrentOf;
    match w {
      case PutWeek(m, c) => PutWeekIs(book.weeks, WeekRow(m, c), m);
      case PutBase(m, c, _) => SeededKept(book); BaseRowKept(Seeded(book), Entry(m, Some(c)));
      case PutSpecial(persona, target, m, price) =>
        PutOfKept(if persona then book.employees else book.plots, target, Entry(m, price));
      case DropSpecial(persona, target, m) => DropOfKept(if persona then book.employees else book.plots, target, m);
      case ReadBase => SeededKept(book);
    }
  }

  lemma BaseRowKept(base: seq<Entry>, e: Entry)
    requires BaseKept(base) && e.price.Some?
    ensures BaseKept(PutRow(base, e))
  {
    PutRowIs(base, e);
  }

  /* ---- what each route changes ---- */

  /** A route that changes a price takes a Monday, and a price that is positive if there is one. */
  predicate Accepted(w: Write) {
    match w
    case PutWeek(m, c) => IsMonday(m) && c > 0
    case PutBase(m, c, _) => IsMonday(m) && c > 0
    case PutSpecial(_, _, m, price) => IsMonday(m) && (price.Some? ==> price.value > 0)
    case DropSpecial(_, _, m) => IsMonday(m)
    case ReadBase => true
  }

  lemma RefusedChangesNothing(book: Book, w: Write)
    requires !Accepted(w)
    ensures Apply(book, w) == book
  {
  }

  lemma PutWeekChanges(book: Book, monday: Day, cents: Cents, m: Day)
    requires Accepted(PutWeek(monday, cents))
    ensures var b := Apply(book, PutWeek(monday, cents));
            && b == book.(weeks := b.weeks)
            && Override(b.weeks, m) == if m == monday then Some(cents) else Override(book.weeks, m)
  {
    PutWeekIs(book.weeks, WeekRow(monday, cents), m);
  }

  /** A base price changes the days from its own until the next row's; and the farm's own price,
      where it has one, becomes the one in force this week. */
  lemma PutBaseChanges(book: Book, monday: Day, cents: Cents, thisWeek: Day, day: Day)
    requires BaseKept(book.base) && Accepted(PutBase(monday, cents, thisWeek))
    ensures var b := Apply(book, PutBase(monday, cents, thisWeek));
            var (was, now) := (InForce(Seeded(book), day), InForce(b.base, thisWeek));
            && b == book.(base := b.base, farm := b.farm) && BaseKept(b.base)
            && InForce(b.base, day)
               == (if monday <= day && (was.None? || was.value.validFrom <= monday)
                   then Some(Entry(monday, Some(cents))) else was)
            && (b.farm.Some? <==> book.farm.Some?)
            && (b.farm.Some? && now.Some? ==> b.farm == now.value.price)
            && (now.None? ==> b.farm == book.farm)
  {
    var e := Entry(monday, Some(cents));
    SeededKept(book);
    ChangeReaches(Seeded(book), e, day);
    BaseRowKept(Seeded(book), e);
    var base := PutRow(Seeded(book), e);
    NewestFirstSorts(base);
    DistinctIsOnePerDate(base);
    SortThenFindAgrees(base, NewestFirstOf(base), thisWeek);
    InForceIsLatest(base, thisWeek);
  }

  lemma PutSpecialChanges(book: Book, persona: bool, target: Id, monday: Day, price: Option<Cents>, id: Id)
    requires Accepted(PutSpecial(persona, target, monday, price))
    ensures var b := Apply(book, PutSpecial(persona, target, monday, price));
            var (was, now) := if persona then (book.employees, b.employees) else (book.plots, b.plots);
            && b == (if persona then book.(employees := now) else book.(plots := now))
            && PricesOf(now, id) == (if id == target then PutRow(PricesOf(was, id), Entry(monday, price))
                                     else PricesOf(was, id))
  {
    PutOfIs(if persona then book.employees else book.plots, target, Entry(monday, price), id);
  }

  lemma DropSpecialChanges(book: Book, persona: bool, target: Id, monday: Day, id: Id)
    requires Accepted(DropSpecial(persona, target, monday))
    ensures var b := Apply(book, DropSpecial(persona, target, monday));
            var (was, now) := if persona then (book.employees, b.employees) else (book.plots, b.plots);
            && b == (if persona then book.(employees := now) else book.(plots := now))
            && PricesOf(now, id) == (if id == target then DropRow(PricesOf(was, id), monday) else PricesOf(was, id))
  {
    DropOfIs(if persona then book.employees else book.plots, target, monday, id);
  }

  /** A history never read before starts on Monday 3 January 2000, at the farm's price or at
      nothing; reading one that was changes nothing but the order of its rows. */
  lemma ReadBaseChanges(book: Book)
    ensures var b := Apply(book, ReadBase);
            && b == book.(base := b.base)
            && (book.base == [] ==>
                  b.base == [Entry(DayOf(Date(2000, 1, 3)), Some(if book.farm.Some? then book.farm.value else 0))])
            && (book.base != [] ==> SameEntries(book.base, b.base) && NewestFirst(b.base))
  {
    hide YearStart, MonthStart;
    SinceAlwaysIsMonday();
    if book.base == [] {
      var e := Entry(SINCE_ALWAYS, Some(if book.farm.Some? then book.farm.value else 0));
      assert [e][..0] == [] && NewestFirstOf([]) == [] && InsertNewest([], e) == [e];
    } else {
      NewestFirstSorts(book.base);
    }
  }

  /** One row per date and target, base rows always priced, weeks always positive: through any
      run of price changes, refused ones included. */
  lemma {:induction false} HistoriesStayKept(book: Book, ws: seq<Write>)
    requires Kept(book)
    ensures Kept(ApplyAll(book, ws)) && WellKept(ApplyAll(book, ws))
  {
    hide Kept, Apply, WellKept;
    if ws != [] {
      HistoriesStayKept(book, ws[..|ws| - 1]);
      WriteKeeps(ApplyAll(book, ws[..|ws| - 1]), ws[|ws| - 1]);
    }
    KeptIsWellKept(ApplyAll(book, ws));
  }

  lemma KeptIsWellKept(book: Book)
    requires Kept(book)
    ensures WellKept(book)
  {
    hide PricesOf;
    DistinctIsOnePerDate(book.base);
    forall id ensures OnePerDate(PricesOf(book.employees, id)) && OnePerDate(PricesOf(book.plots, id)) {
      DistinctIsOnePerDate(PricesOf(book.employees, id));
      DistinctIsOnePerDate(PricesOf(book.plots, id));
    }
  }

  ghost predicate StartsBy(base: seq<Entry>, day: Day) { exists e :: e in base && e.validFrom <= day }

  /** A history once begun never loses its beginning. */
  lemma WriteKeepsStart(book: Book, w: Write, day: Day)
    requires Kept(book) && StartsBy(book.base, day)
    ensures StartsBy(Apply(book, w).base, day)
  {
    hide SpecialsKept, WeeksKept, IsMonday, CurrentOf, DistinctDates;
    var e :| e in book.base && e.validFrom <= day;
    SeededKept(book);
    assert e in Seeded(book);
    if w.PutBase? {
      var row := Entry(w.monday, Some(w.cents));
      PutRowIs(Seeded(book), row);
      if e.validFrom == row.validFrom {
        assert row in PutRow(Seeded(book), row);
      } else {
        assert e in PutRow(Seeded(book), row);
      }
    }
  }

  lemma {:induction false} RunKeepsStart(book: Book, ws: seq<Write>, day: Day)
    requires Kept(book) && StartsBy(book.base, day)
    ensures StartsBy(ApplyAll(book, ws).base, day)
  {
    hide Kept, Apply, StartsBy;
    if ws != [] {
      HistoriesStayKept(book, ws[..|ws| - 1]);
      RunKeepsStart(book, ws[..|ws| - 1], day);
      WriteKeepsStart(ApplyAll(book, ws[..|ws| - 1]), ws[|ws| - 1], day);
    }
  }

  lemma StartedIsRecoverable(server: Book, current: Cents, week: Day)
    requires WellKept(server) && StartsBy(server.base, week)
    ensures Recoverable(server, current, week)
  {
    InForceIsLatest(server.base, week);
  }

  /** A farm that starts with no history at all: once its base price has been read, as every
      sync does first, the device and the server agree on every week since 3 January 2000, whatever
      prices have been changed since. */
  lemma EverySyncAgrees(farm: Option<Cents>, ws: seq<Write>, current: Cents, mondays: seq<Day>, answers: seq<Answer>,
                        book: Book, saved: Option<Book>, q: Query)
    requires Distinct(mondays) && q.week in mondays && q.week >= DayOf(Date(2000, 1, 3))
    requires var server := ApplyAll(Apply(Book([], [], [], [], farm), ReadBase), ws);
             AnswersOf(server, NewestFirstOf(server.base), mondays, answers)
             && Fetched(server, current, mondays, answers, book)
    requires saved.Some? ==> OnePerWeek(saved.value.weeks)
    ensures var server := ApplyAll(Apply(Book([], [], [], [], farm), ReadBase), ws);
            CentsOf(Resolve(Merged(book, mondays, saved), q)) == CentsOf(Resolve(server, q))
  {
    hide Resolve, Merged, Recoverable, WellKept, AnswersOf, Fetched, Kept, OnePerWeek, Distinct, Apply, Seeded;
    var empty := Book([], [], [], [], farm);
    var start := Apply(empty, ReadBase);
    EmptyIsKept(farm);
    WriteKeeps(empty, ReadBase);
    SinceAlwaysIsMonday();
    ReadStarts(farm, q.week);
    HistoriesStayKept(start, ws);
    RunKeepsStart(start, ws, q.week);
    var server := ApplyAll(start, ws);
    StartedIsRecoverable(server, current, q.week);
    SyncAgrees(server, NewestFirstOf(server.base), current, mondays, answers, book, saved, q);
  }

  lemma EmptyIsKept(farm: Option<Cents>)
    ensures Kept(Book([], [], [], [], farm))
  {
  }

  lemma ReadStarts(farm: Option<Cents>, day: Day)
    requires day >= SINCE_ALWAYS
    ensures StartsBy(Apply(Book([], [], [], [], farm), ReadBase).base, day)
  {
    SeededKept(Book([], [], [], [], farm));
  }

  /** The first history date is Monday 3 January 2000. */
  lemma SinceAlwaysIsMonday()
    ensures SINCE_ALWAYS == DayOf(Date(2000, 1, 3)) && IsMonday(SINCE_ALWAYS)
  {
  }
}
