/** The price rules copied to the device: a compressed book that must answer like the server's. */
module DevicePrices {
  import opened Text
  import opened PriceRules

  /** What asking for one week's price came to. */
  datatype Answer = Priced(cents: Cents) | Refused | NoSignal

  /* ---- copying the weeks ---- */

  /** One answer as a row to store: none when there is no usable price, or when the base history
      would give the same one. */
  function Keep(m: Day, a: Answer, base: seq<Entry>, farm: Option<Cents>): (rows: seq<WeekRow>) {
    if !a.Priced? || a.cents <= 0 || Some(a.cents) == BaseOn(base, farm, m) then [] else [WeekRow(m, a.cents)]
  }

  function KeepAll(mondays: seq<Day>, answers: seq<Answer>, base: seq<Entry>, farm: Option<Cents>): (rows: seq<WeekRow>)
    requires |mondays| == |answers|
  {
    if mondays == [] then []
    else
      var n := |mondays| - 1;
      KeepAll(mondays[..n], answers[..n], base, farm) + Keep(mondays[n], answers[n], base, farm)
  }

  /** `fetchWeekOverrides`: one lost answer and nothing is known (None). */
  method FetchWeekOverrides(mondays: seq<Day>, answers: seq<Answer>, base: seq<Entry>, farm: Option<Cents>)
      returns (rows: Option<seq<WeekRow>>)
    requires |mondays| == |answers|
    ensures rows == if NoSignal in answers then None else Some(KeepAll(mondays, answers, base, farm))
  {
    var kept: seq<WeekRow> := [];
    for i := 0 to |mondays|
      invariant NoSignal !in answers[..i] && kept == KeepAll(mondays[..i], answers[..i], base, farm)
    {
      assert mondays[..i + 1][..i] == mondays[..i] && answers[..i + 1][..i] == answers[..i];
      if answers[i] == NoSignal { return None; }
      if answers[i].Priced? && answers[i].cents > 0 {
        var own := BaseOnDevice(mondays[i], base, farm);
        if Some(answers[i].cents) != own { kept := kept + [WeekRow(mondays[i], answers[i].cents)]; }
      }
    }
    assert mondays[..|mondays|] == mondays && answers[..|answers|] == answers;
    rows := Some(kept);
  }

  /** The device's own scan for the base price of a Monday. */
  method BaseOnDevice(monday: Day, base: seq<Entry>, farm: Option<Cents>) returns (p: Option<Cents>)
    ensures p == BaseOn(base, farm, monday)
  {
    var best := EntryOn(base, monday);
    if best.Some? && best.value.price.Some? { return best.value.price; }
    p := if farm.Some? && farm.value > 0 then farm else None;
  }

  /* ---- merging them into the book already there ---- */

  function NotAsked(weeks: seq<WeekRow>, asked: seq<Day>): (kept: seq<WeekRow>)
    ensures forall w :: w in kept <==> w in weeks && w.weekStart !in asked
  {
    if weeks == [] then []
    else
      var rest := NotAsked(weeks[1..], asked);
      assert weeks == [weeks[0]] + weeks[1..];
      if weeks[0].weekStart in asked then rest else [weeks[0]] + rest
  }

  /** `withWeeks`, with its shortcut: same length and every row already there keeps the had book. */
  function WithWeeks(book: Book, asked: seq<Day>, weeks: seq<WeekRow>): (b: Book) {
    var next := NotAsked(book.weeks, asked) + weeks;
    if |next| == |book.weeks| && forall w :: w in next ==> w in book.weeks then book else book.(weeks := next)
  }

  /** At most one row per Monday, the state every device book stays in. */
  ghost predicate OnePerWeek(weeks: seq<WeekRow>) {
    forall i, j :: 0 <= i < j < |weeks| ==> weeks[i].weekStart != weeks[j].weekStart
  }

  ghost predicate Distinct(days: seq<Day>) { forall i, j :: 0 <= i < j < |days| ==> days[i] != days[j] }

  lemma {:induction false} OverrideFound(weeks: seq<WeekRow>, w: WeekRow)
    requires OnePerWeek(weeks) && w in weeks
    ensures Override(weeks, w.weekStart) == Some(w.price)
  {
    assert weeks == [weeks[0]] + weeks[1..];
    if weeks[0] != w {
      var i :| 0 <= i < |weeks| && weeks[i] == w;
      assert weeks[1..][i - 1] == w;
      OverrideFound(weeks[1..], w);
    }
  }

  lemma {:induction false} OverrideMissing(weeks: seq<WeekRow>, m: Day)
    requires forall w :: w in weeks ==> w.weekStart != m
    ensures Override(weeks, m) == None
  {
    if weeks != [] {
      assert weeks == [weeks[0]] + weeks[1..] && weeks[0] in weeks;
      OverrideMissing(weeks[1..], m);
    }
  }

  /** What a Monday has, read off the rows as a set. */
  lemma OverrideIs(weeks: seq<WeekRow>, m: Day, p: Option<Cents>)
    requires OnePerWeek(weeks)
    requires match p case Some(c) => WeekRow(m, c) in weeks case None => forall w :: w in weeks ==> w.weekStart != m
    ensures Override(weeks, m) == p
  {
    if p.Some? { OverrideFound(weeks, WeekRow(m, p.value)); } else { OverrideMissing(weeks, m); }
  }

  lemma {:induction false} OverrideInRows(weeks: seq<WeekRow>, m: Day)
    ensures match Override(weeks, m)
            case Some(c) => WeekRow(m, c) in weeks
            case None => forall w :: w in weeks ==> w.weekStart != m
  {
    if weeks != [] {
      assert weeks == [weeks[0]] + weeks[1..];
      OverrideInRows(weeks[1..], m);
    }
  }

  /** Rows of one Monday each, all found among rows just as many: none is left over. */
  lemma {:induction false} NoneLeftOver(next: seq<WeekRow>, had: seq<WeekRow>)
    requires OnePerWeek(next) && OnePerWeek(had) && |next| == |had|
    requires forall w :: w in next ==> w in had
    ensures forall w :: w in had ==> w in next
  {
    var a, b := set w | w in next, set w | w in had;
    RowsCounted(next);
    RowsCounted(had);
    assert a <= b;
    if a != b { SubsetSmaller(a, b); assert false; }
    assert forall w :: w in had ==> w in b;
  }

  lemma {:induction false} RowsCounted(rows: seq<WeekRow>)
    requires OnePerWeek(rows)
    ensures |set w | w in rows| == |rows|
  {
    if rows != [] {
      var n := |rows| - 1;
      var front := rows[..n];
      RowsCounted(front);
      assert rows == front + [rows[n]];
      assert (set w | w in rows) == (set w | w in front) + {rows[n]};
      assert forall i :: 0 <= i < n ==> front[i] == rows[i] && rows[i].weekStart != rows[n].weekStart;
    }
  }

  lemma SubsetSmaller<T>(a: set<T>, b: set<T>)
    requires a < b
    ensures |a| < |b|
  {
    var x :| x in b && x !in a;
    assert |b| == |(b - a) + a| == |b - a| + |a|;
    assert x in b - a;
  }

  lemma {:induction false} NotAskedOnePerWeek(weeks: seq<WeekRow>, asked: seq<Day>)
    requires OnePerWeek(weeks)
    ensures OnePerWeek(NotAsked(weeks, asked))
  {
    if weeks != [] {
      NotAskedOnePerWeek(weeks[1..], asked);
      var rest := NotAsked(weeks[1..], asked);
      forall j | 0 <= j < |rest| ensures rest[j].weekStart != weeks[0].weekStart {
        var i :| 0 <= i < |weeks[1..]| && weeks[1..][i] == rest[j];
        assert weeks[i + 1] == rest[j];
      }
    }
  }

  /** The shortcut is invisible: merged rows answer a Monday that was asked from the new rows
      and every other Monday from the had ones, and there is still one row per Monday. */
  lemma MergeAnswers(book: Book, asked: seq<Day>, weeks: seq<WeekRow>, m: Day)
    requires OnePerWeek(book.weeks) && OnePerWeek(weeks)
    requires forall w :: w in weeks ==> w.weekStart in asked
    ensures var b := WithWeeks(book, asked, weeks);
            && OnePerWeek(b.weeks) && b == book.(weeks := b.weeks)
            && Override(b.weeks, m) == Override(if m in asked then weeks else book.weeks, m)
  {
    var kept := NotAsked(book.weeks, asked);
    var next := kept + weeks;
    NotAskedOnePerWeek(book.weeks, asked);
    forall i, j | 0 <= i < j < |next| ensures next[i].weekStart != next[j].weekStart {
      if i < |kept| <= j { assert next[i] in kept && next[j] in weeks; }
    }
    OverrideInRows(weeks, m);
    OverrideInRows(book.weeks, m);
    OverrideIs(next, m, Override(if m in asked then weeks else book.weeks, m));
    if |next| == |book.weeks| && forall w :: w in next ==> w in book.weeks {
      NoneLeftOver(next, book.weeks);
      OverrideIs(book.weeks, m, Override(next, m)) by { OverrideInRows(next, m); }
    }
  }

  /* ---- one sync against one state of the server ---- */

  /** The prices the server answers with: `GET /v1/prices/weeks/{monday}` for one Monday. */
  ghost predicate AnswersOf(server: Book, sorted: seq<Entry>, mondays: seq<Day>, answers: seq<Answer>) {
    && |answers| == |mondays|
    && SameEntries(server.base, sorted) && NewestFirst(sorted)
    && forall i :: 0 <= i < |mondays| ==> answers[i] == Priced(WeekPriceOf(server, sorted, mondays[i]))
  }

  ghost predicate SameSpecials(a: seq<Special>, b: seq<Special>) { forall s :: s in a <==> s in b }

  /** What the server's writers keep: one price per date, and weeks with a positive price. */
  ghost predicate WellKept(server: Book) {
    && OnePerDate(server.base)
    && (forall e :: e in server.base ==> e.price.Some?)
    && (forall id :: OnePerDate(PricesOf(server.employees, id)) && OnePerDate(PricesOf(server.plots, id)))
    && (forall w :: w in server.weeks ==> w.price > 0)
  }

  /** The book a fetch builds: the lists in any order, the current base price as the fallback. */
  ghost predicate Fetched(server: Book, current: Cents, mondays: seq<Day>, answers: seq<Answer>, book: Book) {
    && |mondays| == |answers|
    && SameSpecials(server.employees, book.employees) && SameSpecials(server.plots, book.plots)
    && SameEntries(server.base, book.base)
    && book.farm == Positive(Some(current))
    && book.weeks == KeepAll(mondays, answers, book.base, book.farm)
  }

  lemma SpecialsAgree(a: seq<Special>, b: seq<Special>, id: Id, week: Day)
    requires SameSpecials(a, b) && OnePerDate(PricesOf(a, id))
    ensures SpecialPrice(a, id, week) == SpecialPrice(b, id, week)
  {
    forall e ensures e in PricesOf(a, id) <==> e in PricesOf(b, id) {
      assert Special(id, e) in a <==> Special(id, e) in b;
    }
    OrderDoesNotMatter(PricesOf(a, id), PricesOf(b, id), week);
  }

  lemma {:induction false} KeepAllRows(mondays: seq<Day>, answers: seq<Answer>, base: seq<Entry>, farm: Option<Cents>)
    requires |mondays| == |answers| && Distinct(mondays)
    ensures var rows := KeepAll(mondays, answers, base, farm);
            && OnePerWeek(rows)
            && (forall w :: w in rows ==> w.weekStart in mondays)
            && forall i :: 0 <= i < |mondays| ==>
                 Override(rows, mondays[i]) == Override(Keep(mondays[i], answers[i], base, farm), mondays[i])
  {
    if mondays != [] {
      var n := |mondays| - 1;
      var front, last := KeepAll(mondays[..n], answers[..n], base, farm), Keep(mondays[n], answers[n], base, farm);
      var rows := front + last;
      KeepAllRows(mondays[..n], answers[..n], base, farm);
      assert forall w :: w in front ==> w in rows && w.weekStart in mondays[..n];
      forall w | w in rows ensures w.weekStart in mondays { assert w in front || w in last; }
      assert mondays[n] !in mondays[..n];
      assert OnePerWeek(rows) by {
        forall i, j | 0 <= i < j < |rows| ensures rows[i].weekStart != rows[j].weekStart {
          if i < |front| <= j { assert rows[i] in front && rows[j] in last; }
        }
      }
      forall i | 0 <= i < |mondays|
        ensures Override(rows, mondays[i]) == Override(Keep(mondays[i], answers[i], base, farm), mondays[i])
      {
        var part := if i < n then front else last;
        OverrideInRows(part, mondays[i]);
        forall w | w in rows && w !in part ensures w.weekStart != mondays[i] {
          if i == n { assert w in front; } else { assert w in last; }
        }
        OverrideIs(rows, mondays[i], Override(part, mondays[i]));
        assert i < n ==> mondays[..n][i] == mondays[i] && answers[..n][i] == answers[i];
      }
    }
  }

  function CentsOf(p: Option<KiloPrice>): (c: Option<Cents>) { if p.Some? then Some(p.value.cents) else None }

  /** When a week's price survives the copy: the week has its own price or a base row, or the
      server's fallback is positive, or there is no positive current price to mistake for it. */
  ghost predicate Recoverable(server: Book, current: Cents, week: Day) {
    || Override(server.weeks, week).Some?
    || BaseOn(server.base, None, week).Some?
    || Positive(server.farm).Some?
    || current <= 0
  }

  /** One week, without persons or lotes: dropping the overrides that equal the base and
      standing the current price in for the farm's loses nothing, exactly when recoverable. */
  lemma WeekSurvives(server: Book, sorted: seq<Entry>, current: Cents, base: seq<Entry>, week: Day)
    requires WellKept(server) && SameEntries(server.base, sorted) && NewestFirst(sorted)
    requires SameEntries(server.base, base)
    ensures var farm := Positive(Some(current));
            var kept := Keep(week, Priced(WeekPriceOf(server, sorted, week)), base, farm);
            CentsOf(WeekOrFarm(Book([], [], kept, base, farm), week)) == CentsOf(WeekOrFarm(server, week))
            <==> Recoverable(server, current, week)
  {
    SortThenFindAgrees(server.base, sorted, week);
    OrderDoesNotMatter(server.base, base, week);
    InForceIsLatest(server.base, week);
    OverrideInRows(server.weeks, week);
  }

  lemma WeekPartOnly(a: Book, b: Book, week: Day)
    requires Override(a.weeks, week) == Override(b.weeks, week) && a.base == b.base && a.farm == b.farm
    ensures WeekOrFarm(a, week) == WeekOrFarm(b, week)
  {
  }

  /** After a sync the device's book gives, for every query about a Monday that was asked, the
      price the server's whole book gives — if and only if that week is recoverable or a
      person's or a lote's price decides. Other Mondays keep the override they had. */
  lemma SyncAgrees(server: Book, sorted: seq<Entry>, current: Cents, mondays: seq<Day>, answers: seq<Answer>,
                   book: Book, saved: Option<Book>, q: Query)
    requires WellKept(server) && Distinct(mondays) && q.week in mondays
    requires AnswersOf(server, sorted, mondays, answers) && Fetched(server, current, mondays, answers, book)
    requires saved.Some? ==> OnePerWeek(saved.value.weeks)
    ensures CentsOf(Resolve(Merged(book, mondays, saved), q)) == CentsOf(Resolve(server, q))
       <==> SpecialPrice(server.employees, q.employee, q.week).Some? || LotePrice(server.plots, q.plots, q.week).Some?
            || Recoverable(server, current, q.week)
  {
    hide WellKept, Recoverable, OnePerWeek, KeepAll, AnswersOf, Fetched, WithWeeks;
    var merged := Merged(book, mondays, saved);
    MergedParts(book, mondays, saved, current, server, answers);
    SpecialsSurvive(server, book, q);
    MergedWeek(server, sorted, current, mondays, answers, book, saved, q.week);
  }

  /** The saved weeks that were not asked about, under the lists just fetched. */
  function Merged(book: Book, mondays: seq<Day>, saved: Option<Book>): (b: Book) {
    if saved.None? then book else WithWeeks(book.(weeks := saved.value.weeks), mondays, book.weeks)
  }

  lemma MergedParts(book: Book, mondays: seq<Day>, saved: Option<Book>, current: Cents, server: Book,
                    answers: seq<Answer>)
    requires Fetched(server, current, mondays, answers, book)
    ensures var b := Merged(book, mondays, saved); b.employees == book.employees && b.plots == book.plots
    ensures SameSpecials(server.employees, book.employees) && SameSpecials(server.plots, book.plots)
  {
  }

  lemma SpecialsSurvive(server: Book, book: Book, q: Query)
    requires WellKept(server) && SameSpecials(server.employees, book.employees)
    requires SameSpecials(server.plots, book.plots)
    ensures SpecialPrice(book.employees, q.employee, q.week) == SpecialPrice(server.employees, q.employee, q.week)
    ensures LotePrice(book.plots, q.plots, q.week) == LotePrice(server.plots, q.plots, q.week)
  {
    hide SameSpecials;
    SpecialsAgree(server.employees, book.employees, q.employee, q.week);
    forall id ensures SpecialPrice(book.plots, id, q.week) == SpecialPrice(server.plots, id, q.week) {
      SpecialsAgree(server.plots, book.plots, id, q.week);
    }
  }

  lemma MergedWeek(server: Book, sorted: seq<Entry>, current: Cents, mondays: seq<Day>, answers: seq<Answer>,
                   book: Book, saved: Option<Book>, week: Day)
    requires WellKept(server) && Distinct(mondays) && week in mondays
    requires AnswersOf(server, sorted, mondays, answers) && Fetched(server, current, mondays, answers, book)
    requires saved.Some? ==> OnePerWeek(saved.value.weeks)
    ensures CentsOf(WeekOrFarm(Merged(book, mondays, saved), week)) == CentsOf(WeekOrFarm(server, week))
       <==> Recoverable(server, current, week)
  {
    hide WellKept, Recoverable, WithWeeks, NewestFirst, OnePerWeek;
    var i :| 0 <= i < |mondays| && mondays[i] == week;
    var merged := Merged(book, mondays, saved);
    var kept := Keep(week, answers[i], book.base, book.farm);
    KeepAllRows(mondays, answers, book.base, book.farm);
    if saved.Some? { MergeAnswers(book.(weeks := saved.value.weeks), mondays, book.weeks, week); }
    WeekPartOnly(merged, Book([], [], kept, book.base, book.farm), week);
    WeekSurvives(server, sorted, current, book.base, week);
  }

  /** A server whose history starts later than the week, with no farm price of its own: the
      device mistakes the current price for that week's. */
  lemma CopyCanInventPrice(week: Day, from: Day, current: Cents)
    requires week < from && current > 0
    ensures var server := Book([], [], [], [Entry(from, Some(current))], None);
            var book := Book([], [], KeepAll([week], [Priced(0)], server.base, Some(current)),
                             server.base, Some(current));
            && AnswersOf(server, server.base, [week], [Priced(0)])
            && Fetched(server, current, [week], [Priced(0)], book)
            && CentsOf(Resolve(server, Query(0, [], week))) == None
            && CentsOf(Resolve(book, Query(0, [], week))) == Some(current)
  {
    var server := Book([], [], [], [Entry(from, Some(current))], None);
    InForceIsLatest(server.base, week);
    assert [week][..0] == [] && [Priced(0)][..0] == [];
    assert FirstApplying(server.base[1..], week) == None;
  }

  /* ---- any number of syncs and lookups on one device ---- */

  /** One thing that happens to the copy: a sync that got through, one that did not, or one
      more Monday asked for a book in hand. */
  datatype Step =
    | Synced(book: Book, mondays: seq<Day>, answers: seq<Answer>)
    | Ensured(monday: Day, answer: Answer)
    | Lost

  ghost predicate Proper(s: Step) {
    s.Synced? ==> |s.mondays| == |s.answers| && Distinct(s.mondays)
                  && s.book.weeks == KeepAll(s.mondays, s.answers, s.book.base, s.book.farm)
  }

  /** `ensureWeek`: a Monday already priced, or no answer, leaves the book as it was. */
  function EnsureWeek(book: Book, monday: Day, a: Answer): (b: Book) {
    if Override(book.weeks, monday).Some? || a.NoSignal? then book
    else WithWeeks(book, [monday], Keep(monday, a, book.base, book.farm))
  }

  function Apply(saved: Option<Book>, s: Step): (after: Option<Book>) {
    match s
    case Synced(book, mondays, _) => Some(Merged(book, mondays, saved))
    case Ensured(m, a) => if saved.None? then None else Some(EnsureWeek(saved.value, m, a))
    case Lost => saved
  }

  function ApplyAll(saved: Option<Book>, steps: seq<Step>): (after: Option<Book>) {
    if steps == [] then saved else Apply(ApplyAll(saved, steps[..|steps| - 1]), steps[|steps| - 1])
  }

  /** A device that started with no copy keeps one row per Monday through every run, which is
      what makes the shortcut of the merge safe each time it is taken. */
  lemma {:induction false} DeviceKeepsOnePerWeek(steps: seq<Step>)
    requires forall s :: s in steps ==> Proper(s)
    ensures var b := ApplyAll(None, steps); b.Some? ==> OnePerWeek(b.value.weeks)
  {
    if steps != [] {
      var front, s := steps[..|steps| - 1], steps[|steps| - 1];
      assert s in steps && forall t :: t in front ==> t in steps;
      DeviceKeepsOnePerWeek(front);
      var saved := ApplyAll(None, front);
      match s {
        case Synced(book, mondays, answers) =>
          KeepAllRows(mondays, answers, book.base, book.farm);
          if saved.Some? { MergeAnswers(book.(weeks := saved.value.weeks), mondays, book.weeks, 0); }
        case Ensured(m, a) =>
          if saved.Some? { MergeAnswers(saved.value, [m], Keep(m, a, saved.value.base, saved.value.farm), m); }
        case Lost =>
      }
    }
  }

  ghost predicate Asks(s: Step, m: Day) { (s.Synced? && m in s.mondays) || (s.Ensured? && s.monday == m) }

  lemma KeepIsOne(m: Day, a: Answer, b: Book)
    ensures OnePerWeek(Keep(m, a, b.base, b.farm))
  {
  }

  lemma UnaskedStep(b: Book, s: Step, m: Day)
    requires OnePerWeek(b.weeks) && Proper(s) && !Asks(s, m)
    ensures var c := Apply(Some(b), s);
            c.Some? && OnePerWeek(c.value.weeks)
            && Override(c.value.weeks, m) == Override(b.weeks, m)
  {
    hide OnePerWeek, KeepAll, WithWeeks, Override;
    match s {
      case Synced(book, mondays, answers) =>
        KeepAllRows(mondays, answers, book.base, book.farm);
        MergeAnswers(book.(weeks := b.weeks), mondays, book.weeks, m);
      case Ensured(n, a) =>
        KeepIsOne(n, a, b);
        MergeAnswers(b, [n], Keep(n, a, b.base, b.farm), m);
      case Lost =>
    }
  }

  /** Through a whole run, a Monday nobody asks about keeps the override it had. */
  lemma {:induction false} UnaskedWeeksKept(saved: Book, steps: seq<Step>, m: Day)
    requires OnePerWeek(saved.weeks) && forall s :: s in steps ==> Proper(s) && !Asks(s, m)
    ensures var b := ApplyAll(Some(saved), steps);
            b.Some? && OnePerWeek(b.value.weeks) && Override(b.value.weeks, m) == Override(saved.weeks, m)
  {
    hide OnePerWeek, Proper, Asks, Apply, Override;
    if steps != [] {
      var front, s := steps[..|steps| - 1], steps[|steps| - 1];
      assert s in steps && forall t :: t in front ==> t in steps;
      UnaskedWeeksKept(saved, front, m);
      UnaskedStep(ApplyAll(Some(saved), front).value, s, m);
    }
  }

  /** One more Monday on a book in hand whose lists are the server's: the same guarantee, for
      every query of that Monday. */
  lemma EnsureAgrees(server: Book, sorted: seq<Entry>, current: Cents, book: Book, q: Query)
    requires WellKept(server) && SameEntries(server.base, sorted) && NewestFirst(sorted)
    requires SameSpecials(server.employees, book.employees) && SameSpecials(server.plots, book.plots)
    requires SameEntries(server.base, book.base) && book.farm == Positive(Some(current)) && OnePerWeek(book.weeks)
    requires Override(book.weeks, q.week).None?
    ensures var b := EnsureWeek(book, q.week, Priced(WeekPriceOf(server, sorted, q.week)));
            && CentsOf(Resolve(b, q)) == CentsOf(Resolve(server, q))
            <==> SpecialPrice(server.employees, q.employee, q.week).Some?
                 || LotePrice(server.plots, q.plots, q.week).Some?
                 || Recoverable(server, current, q.week)
  {
    hide WellKept, Recoverable, NewestFirst, OnePerWeek;
    var kept := Keep(q.week, Priced(WeekPriceOf(server, sorted, q.week)), book.base, book.farm);
    MergeAnswers(book, [q.week], kept, q.week);
    WeekPartOnly(WithWeeks(book, [q.week], kept), Book([], [], kept, book.base, book.farm), q.week);
    WeekSurvives(server, sorted, current, book.base, q.week);
    SpecialsSurvive(server, book, q);
  }

  /** A Monday already priced on the device is not asked about again, and no answer changes
      nothing. */
  lemma EnsureKeeps(book: Book, monday: Day, a: Answer)
    requires Override(book.weeks, monday).Some? || a.NoSignal?
    ensures EnsureWeek(book, monday, a) == book && Apply(Some(book), Lost) == Some(book)
  {
  }
}
