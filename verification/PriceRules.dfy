/** What a kilo is worth: person, then lote, then week, then farm, each dated by a Monday.
    Days are numbered; module Calendar shows that numbering and ISO text sort alike. */
module PriceRules {
  import opened Text

  type Day = int
  type Cents = int
  type Id = int

  /** A dated price. None ends a special price from that day on. */
  datatype Entry = Entry(validFrom: Day, price: Option<Cents>)

  /** A dated price of one person or one lote. */
  datatype Special = Special(target: Id, entry: Entry)

  datatype WeekRow = WeekRow(weekStart: Day, price: Cents)

  datatype Book = Book(
    employees: seq<Special>,
    plots: seq<Special>,
    weeks: seq<WeekRow>,
    base: seq<Entry>,
    farm: Option<Cents>)

  datatype Source = Persona | Lote | Semana | Finca

  datatype KiloPrice = KiloPrice(cents: Cents, source: Source)

  datatype Query = Query(employee: Id, plots: seq<Id>, week: Day)

  /* ---- the entry in force on a day ---- */

  /** The latest entry not after `day`; the first of them when dates repeat. */
  function InForce(es: seq<Entry>, day: Day): (r: Option<Entry>) {
    if es == [] then None
    else
      var best, e := InForce(es[..|es| - 1], day), es[|es| - 1];
      if e.validFrom > day then best
      else if best.None? || e.validFrom > best.value.validFrom then Some(e)
      else best
  }

  method EntryOn(entries: seq<Entry>, day: Day) returns (best: Option<Entry>)
    ensures best == InForce(entries, day)
  {
    best := None;
    for i := 0 to |entries|
      invariant best == InForce(entries[..i], day)
    {
      assert entries[..i + 1][..i] == entries[..i];
      var e := entries[i];
      if e.validFrom > day { continue; }
      if best.None? || e.validFrom > best.value.validFrom { best := Some(e); }
    }
    assert entries[..|entries|] == entries;
  }

  /** What "in force" means, without saying how it is found. */
  ghost predicate Latest(es: seq<Entry>, day: Day, r: Option<Entry>) {
    match r
    case None => forall e :: e in es ==> e.validFrom > day
    case Some(b) => b in es && b.validFrom <= day
                    && forall e :: e in es && e.validFrom <= day ==> e.validFrom <= b.validFrom
  }

  lemma {:induction false} InForceIsLatest(es: seq<Entry>, day: Day)
    ensures Latest(es, day, InForce(es, day))
  {
    if es != [] {
      var front, e := es[..|es| - 1], es[|es| - 1];
      InForceIsLatest(front, day);
      assert es == front + [e];
    }
  }

  /** No two different entries share a date. */
  ghost predicate OnePerDate(es: seq<Entry>) {
    forall e, f :: e in es && f in es && e.validFrom == f.validFrom ==> e == f
  }

  ghost predicate SameEntries(es: seq<Entry>, fs: seq<Entry>) { forall e :: e in es <==> e in fs }

  /** With one price per date, the order the history is kept in does not matter. */
  lemma OrderDoesNotMatter(es: seq<Entry>, fs: seq<Entry>, day: Day)
    requires OnePerDate(es) && SameEntries(es, fs)
    ensures InForce(es, day) == InForce(fs, day)
  {
    InForceIsLatest(es, day);
    InForceIsLatest(fs, day);
  }

  /** A change dated later leaves every earlier day at the price it had. */
  lemma {:induction false} LaterEntriesDoNotReachBack(es: seq<Entry>, added: seq<Entry>, day: Day)
    requires forall e :: e in added ==> e.validFrom > day
    ensures InForce(es + added, day) == InForce(es, day)
  {
    if added == [] {
      assert es + added == es;
    } else {
      var front := added[..|added| - 1];
      LaterEntriesDoNotReachBack(es, front, day);
      assert (es + added)[..|es + added| - 1] == es + front;
      assert added[|added| - 1] in added;
    }
  }

  /* ---- sort, then take the first that applies ---- */

  ghost predicate NewestFirst(es: seq<Entry>) {
    forall i, j :: 0 <= i < j < |es| ==> es[i].validFrom >= es[j].validFrom
  }

  function FirstApplying(es: seq<Entry>, day: Day): (r: Option<Entry>) {
    if es == [] then None
    else if es[0].validFrom <= day then Some(es[0])
    else FirstApplying(es[1..], day)
  }

  lemma {:induction false} FirstApplyingIsLatest(es: seq<Entry>, day: Day)
    requires NewestFirst(es)
    ensures Latest(es, day, FirstApplying(es, day))
  {
    if es != [] {
      assert es == [es[0]] + es[1..];
      if es[0].validFrom <= day {
        forall e | e in es ensures e.validFrom <= es[0].validFrom {
          var i :| 0 <= i < |es| && es[i] == e;
        }
      } else {
        FirstApplyingIsLatest(es[1..], day);
      }
    }
  }

  /** The server sorts and takes the first, the device scans once: one answer for both,
      whatever order the rows are stored in. */
  lemma SortThenFindAgrees(stored: seq<Entry>, sorted: seq<Entry>, day: Day)
    requires OnePerDate(stored) && SameEntries(stored, sorted) && NewestFirst(sorted)
    ensures FirstApplying(sorted, day) == InForce(stored, day)
  {
    InForceIsLatest(stored, day);
    FirstApplyingIsLatest(sorted, day);
  }

  /** The base history newest first, as the week reader sorts it: by insertion, so a row
      dated like another goes after it. */
  function NewestFirstOf(base: seq<Entry>): (sorted: seq<Entry>) {
    if base == [] then [] else InsertNewest(NewestFirstOf(base[..|base| - 1]), base[|base| - 1])
  }

  function InsertNewest(es: seq<Entry>, e: Entry): (out: seq<Entry>) {
    if es == [] then [e]
    else if es[|es| - 1].validFrom < e.validFrom then InsertNewest(es[..|es| - 1], e) + [es[|es| - 1]]
    else es + [e]
  }

  lemma {:induction false} InsertNewestHas(es: seq<Entry>, e: Entry)
    ensures forall x :: x in InsertNewest(es, e) <==> x in es || x == e
  {
    if es != [] {
      var n := |es| - 1;
      assert es == es[..n] + [es[n]];
      InsertNewestHas(es[..n], e);
    }
  }

  lemma {:induction false} InsertNewestSorted(es: seq<Entry>, e: Entry)
    requires NewestFirst(es)
    ensures NewestFirst(InsertNewest(es, e))
  {
    if es != [] {
      var n := |es| - 1;
      if es[n].validFrom < e.validFrom {
        var front := InsertNewest(es[..n], e);
        InsertNewestSorted(es[..n], e);
        InsertNewestHas(es[..n], e);
        forall i | 0 <= i < |front| ensures front[i].validFrom >= es[n].validFrom {
          assert front[i] in front;
          if front[i] != e { var j :| 0 <= j < n && es[j] == front[i]; }
        }
      }
    }
  }

  /** The sort the server runs really is one: the same rows, newest first. */
  lemma {:induction false} NewestFirstSorts(base: seq<Entry>)
    ensures NewestFirst(NewestFirstOf(base)) && SameEntries(base, NewestFirstOf(base))
  {
    if base != [] {
      var n := |base| - 1;
      assert base == base[..n] + [base[n]];
      NewestFirstSorts(base[..n]);
      InsertNewestSorted(NewestFirstOf(base[..n]), base[n]);
      InsertNewestHas(NewestFirstOf(base[..n]), base[n]);
    }
  }

  /* ---- the priority rule ---- */

  /** The dated prices of one person or lote, in the order they are kept. */
  function PricesOf(rows: seq<Special>, target: Id): (es: seq<Entry>)
    ensures forall e :: e in es <==> Special(target, e) in rows
  {
    if rows == [] then []
    else
      var rest := PricesOf(rows[1..], target);
      assert rows == [rows[0]] + rows[1..];
      if rows[0].target == target then [rows[0].entry] + rest else rest
  }

  function SpecialPrice(rows: seq<Special>, target: Id, week: Day): (p: Option<Cents>) {
    var e := InForce(PricesOf(rows, target), week);
    if e.Some? then e.value.price else None
  }

  /** The one price all the named lotes have, if they all have it. */
  function LotePrice(rows: seq<Special>, plots: seq<Id>, week: Day): (p: Option<Cents>) {
    if |plots| > 0 && forall id :: id in plots ==> SpecialPrice(rows, id, week) == SpecialPrice(rows, plots[0], week)
    then SpecialPrice(rows, plots[0], week)
    else None
  }

  function Override(weeks: seq<WeekRow>, week: Day): (p: Option<Cents>) {
    if weeks == [] then None
    else if weeks[0].weekStart == week then Some(weeks[0].price)
    else Override(weeks[1..], week)
  }

  function Positive(p: Option<Cents>): (q: Option<Cents>) { if p.Some? && p.value > 0 then p else None }

  function BaseOn(base: seq<Entry>, farm: Option<Cents>, week: Day): (p: Option<Cents>) {
    var row := InForce(base, week);
    if row.Some? && row.value.price.Some? then row.value.price else Positive(farm)
  }

  function WeekOrFarm(book: Book, week: Day): (p: Option<KiloPrice>) {
    var o, b := Override(book.weeks, week), BaseOn(book.base, book.farm, week);
    if o.Some? then Some(KiloPrice(o.value, Semana))
    else if b.Some? then Some(KiloPrice(b.value, Finca))
    else None
  }

  function Resolve(book: Book, q: Query): (p: Option<KiloPrice>) {
    var person, lote := SpecialPrice(book.employees, q.employee, q.week), LotePrice(book.plots, q.plots, q.week);
    if person.Some? then Some(KiloPrice(person.value, Persona))
    else if lote.Some? then Some(KiloPrice(lote.value, Lote))
    else WeekOrFarm(book, q.week)
  }

  /* ---- the same rule, read off the histories ---- */

  /** Row `k` is the one in force for a target: the latest not after the day, and the first
      written of those with its date. */
  ghost predicate Governs(rows: seq<Special>, target: Id, day: Day, k: int) {
    && 0 <= k < |rows| && rows[k].target == target && rows[k].entry.validFrom <= day
    && forall j :: 0 <= j < |rows| && rows[j].target == target && rows[j].entry.validFrom <= day ==>
         var e, f := rows[j].entry.validFrom, rows[k].entry.validFrom;
         e < f || (e == f && k <= j)
  }

  ghost predicate Carries(rows: seq<Special>, target: Id, day: Day, p: Cents) {
    exists k :: Governs(rows, target, day, k) && rows[k].entry.price == Some(p)
  }

  /** The same for a history of one target. */
  ghost predicate BaseGoverns(es: seq<Entry>, day: Day, k: int) {
    && 0 <= k < |es| && es[k].validFrom <= day
    && forall j :: 0 <= j < |es| && es[j].validFrom <= day ==>
         es[j].validFrom < es[k].validFrom || (es[j].validFrom == es[k].validFrom && k <= j)
  }

  ghost predicate BaseCarries(es: seq<Entry>, day: Day, p: Cents) {
    exists k :: BaseGoverns(es, day, k) && es[k].price == Some(p)
  }

  /** The first row kept for a week. */
  ghost predicate WeekCarries(weeks: seq<WeekRow>, week: Day, p: Cents) {
    exists k :: FirstOfWeek(weeks, week, p, k)
  }

  predicate FirstOfWeek(weeks: seq<WeekRow>, week: Day, p: Cents, k: int) {
    0 <= k < |weeks| && weeks[k] == WeekRow(week, p) && forall j :: 0 <= j < k ==> weeks[j].weekStart != week
  }

  lemma {:induction false} PricesOfSnoc(rows: seq<Special>, s: Special, target: Id)
    ensures PricesOf(rows + [s], target) == PricesOf(rows, target) + if s.target == target then [s.entry] else []
  {
    if rows == [] {
      assert [] + [s] == [s] && [s][1..] == [];
    } else {
      assert (rows + [s])[1..] == rows[1..] + [s];
      PricesOfSnoc(rows[1..], s, target);
    }
  }

  lemma InForceSnoc(es: seq<Entry>, e: Entry, day: Day)
    ensures var best := InForce(es, day);
            InForce(es + [e], day)
            == if e.validFrom <= day && (best.None? || e.validFrom > best.value.validFrom) then Some(e) else best
  {
    assert (es + [e])[..|es|] == es;
  }

  /** The entry found is the one that governs; none is found when none applies. */
  lemma {:induction false} InForceGoverns(rows: seq<Special>, target: Id, day: Day) returns (k: int)
    ensures match InForce(PricesOf(rows, target), day)
            case None => forall j :: 0 <= j < |rows| && rows[j].target == target ==> rows[j].entry.validFrom > day
            case Some(e) => Governs(rows, target, day, k) && rows[k].entry == e
  {
    if rows == [] { return 0; }
    var n := |rows| - 1;
    assert rows == rows[..n] + [rows[n]];
    k := InForceGoverns(rows[..n], target, day);
    PricesOfSnoc(rows[..n], rows[n], target);
    InForceSnoc(PricesOf(rows[..n], target), rows[n].entry, day);
    var front := PricesOf(rows[..n], target);
    assert front + [] == front;
    if InForce(PricesOf(rows, target), day) != InForce(front, day) { k := n; }
  }

  /** A target's price is the one its governing row carries. */
  lemma SpecialExactly(rows: seq<Special>, target: Id, day: Day, p: Cents)
    ensures SpecialPrice(rows, target, day) == Some(p) <==> Carries(rows, target, day, p)
  {
    hide InForce, PricesOf;
    var k := InForceGoverns(rows, target, day);
    forall j | Governs(rows, target, day, j) && InForce(PricesOf(rows, target), day).Some? ensures j == k {
      assert Governs(rows, target, day, k);
    }
  }

  /** One history is the rows of one target. */
  function Rows(es: seq<Entry>): (rows: seq<Special>)
    ensures |rows| == |es| && forall i :: 0 <= i < |es| ==> rows[i] == Special(0, es[i])
  {
    seq(|es|, i requires 0 <= i < |es| => Special(0, es[i]))
  }

  lemma {:induction false} RowsPrices(es: seq<Entry>)
    ensures PricesOf(Rows(es), 0) == es
  {
    if es != [] {
      assert Rows(es)[1..] == Rows(es[1..]);
      RowsPrices(es[1..]);
    }
  }

  lemma BaseExactly(es: seq<Entry>, day: Day, p: Cents)
    ensures InForce(es, day).Some? && InForce(es, day).value.price == Some(p) <==> BaseCarries(es, day, p)
  {
    hide InForce, PricesOf;
    RowsPrices(es);
    SpecialExactly(Rows(es), 0, day, p);
    assert forall k :: Governs(Rows(es), 0, day, k) <==> BaseGoverns(es, day, k);
    if Carries(Rows(es), 0, day, p) {
      var k :| Governs(Rows(es), 0, day, k) && Rows(es)[k].entry.price == Some(p);
      assert BaseGoverns(es, day, k);
    }
    if BaseCarries(es, day, p) {
      var k :| BaseGoverns(es, day, k) && es[k].price == Some(p);
      assert Governs(Rows(es), 0, day, k);
    }
  }

  lemma {:induction false} OverrideExactly(weeks: seq<WeekRow>, week: Day, p: Cents)
    ensures Override(weeks, week) == Some(p) <==> WeekCarries(weeks, week, p)
  {
    if weeks != [] {
      var rest := weeks[1..];
      OverrideExactly(rest, week, p);
      if weeks[0].weekStart == week {
        assert Override(weeks, week) == Some(p) ==> FirstOfWeek(weeks, week, p, 0);
      } else {
        if WeekCarries(rest, week, p) {
          var k :| FirstOfWeek(rest, week, p, k);
          forall j | 0 <= j < k + 1 ensures weeks[j].weekStart != week { assert j > 0 ==> weeks[j] == rest[j - 1]; }
          assert FirstOfWeek(weeks, week, p, k + 1);
        }
        if WeekCarries(weeks, week, p) {
          var k :| FirstOfWeek(weeks, week, p, k);
          forall j | 0 <= j < k - 1 ensures rest[j].weekStart != week { assert rest[j] == weeks[j + 1]; }
          assert FirstOfWeek(rest, week, p, k - 1);
        }
      }
    }
  }

  ghost predicate PersonSays(book: Book, q: Query, p: Cents) { Carries(book.employees, q.employee, q.week, p) }

  /** At least one lote is named, and every one named carries the price. */
  ghost predicate LotesSay(book: Book, q: Query, p: Cents) {
    q.plots != [] && forall id :: id in q.plots ==> Carries(book.plots, id, q.week, p)
  }

  ghost predicate WeekSays(book: Book, q: Query, p: Cents) { WeekCarries(book.weeks, q.week, p) }

  /** The base row in force, or the farm's own positive price where no row has one. */
  ghost predicate FarmSays(book: Book, q: Query, p: Cents) {
    || BaseCarries(book.base, q.week, p)
    || ((forall x :: !BaseCarries(book.base, q.week, x)) && book.farm == Some(p) && p > 0)
  }

  ghost predicate NoPerson(book: Book, q: Query) { forall x :: !PersonSays(book, q, x) }

  ghost predicate NoLotes(book: Book, q: Query) { forall x :: !LotesSay(book, q, x) }

  ghost predicate NoWeek(book: Book, q: Query) { forall x :: !WeekSays(book, q, x) }

  ghost predicate NoFarm(book: Book, q: Query) { forall x :: !FarmSays(book, q, x) }

  lemma LotesExactly(book: Book, q: Query, p: Cents)
    ensures LotePrice(book.plots, q.plots, q.week) == Some(p) <==> LotesSay(book, q, p)
  {
    hide SpecialPrice, Carries;
    forall id ensures SpecialPrice(book.plots, id, q.week) == Some(p) <==> Carries(book.plots, id, q.week, p) {
      SpecialExactly(book.plots, id, q.week, p);
    }
    if q.plots != [] { assert q.plots[0] in q.plots; }
  }

  lemma WeekOrFarmExactly(book: Book, q: Query, p: Cents)
    ensures WeekOrFarm(book, q.week) == Some(KiloPrice(p, Semana)) <==> WeekSays(book, q, p)
    ensures WeekOrFarm(book, q.week) == Some(KiloPrice(p, Finca)) <==> NoWeek(book, q) && FarmSays(book, q, p)
    ensures WeekOrFarm(book, q.week).None? <==> NoWeek(book, q) && NoFarm(book, q)
    ensures match WeekOrFarm(book, q.week) case None => true case Some(k) => k.source.Semana? || k.source.Finca?
  {
    hide Override, InForce, WeekCarries, BaseCarries;
    forall x ensures Override(book.weeks, q.week) == Some(x) <==> WeekCarries(book.weeks, q.week, x) {
      OverrideExactly(book.weeks, q.week, x);
    }
    forall x {
      BaseExactly(book.base, q.week, x);
    }
    var row := InForce(book.base, q.week);
    assert (forall x :: !BaseCarries(book.base, q.week, x)) <==> row.None? || row.value.price.None? by {
      if row.Some? && row.value.price.Some? { assert BaseCarries(book.base, q.week, row.value.price.value); }
    }
    var b := BaseOn(book.base, book.farm, q.week);
    assert forall x :: b == Some(x) <==> FarmSays(book, q, x);
    if b.Some? { assert FarmSays(book, q, b.value); }
    if Override(book.weeks, q.week).Some? { assert WeekSays(book, q, Override(book.weeks, q.week).value); }
  }

  /** The order of the rule, for every book and query: a person's own price first, then one all
      the named lotes share, then the week's, then the farm's; and the source says which. */
  lemma ResolveExactly(book: Book, q: Query, p: Cents)
    ensures Resolve(book, q) == Some(KiloPrice(p, Persona)) <==> PersonSays(book, q, p)
    ensures Resolve(book, q) == Some(KiloPrice(p, Lote)) <==> NoPerson(book, q) && LotesSay(book, q, p)
    ensures Resolve(book, q) == Some(KiloPrice(p, Semana))
       <==> NoPerson(book, q) && NoLotes(book, q) && WeekSays(book, q, p)
    ensures Resolve(book, q) == Some(KiloPrice(p, Finca))
       <==> NoPerson(book, q) && NoLotes(book, q) && NoWeek(book, q) && FarmSays(book, q, p)
    ensures Resolve(book, q).None?
       <==> NoPerson(book, q) && NoLotes(book, q) && NoWeek(book, q) && NoFarm(book, q)
  {
    hide SpecialPrice, LotePrice, WeekOrFarm, Carries, LotesSay, WeekSays, FarmSays, NoWeek, NoFarm;
    forall x ensures SpecialPrice(book.employees, q.employee, q.week) == Some(x) <==> PersonSays(book, q, x) {
      SpecialExactly(book.employees, q.employee, q.week, x);
    }
    forall x ensures LotePrice(book.plots, q.plots, q.week) == Some(x) <==> LotesSay(book, q, x) {
      LotesExactly(book, q, x);
    }
    WeekOrFarmExactly(book, q, p);
    var person, lote := SpecialPrice(book.employees, q.employee, q.week), LotePrice(book.plots, q.plots, q.week);
    if person.Some? { assert PersonSays(book, q, person.value); }
    if lote.Some? { assert LotesSay(book, q, lote.value); }
  }

  /** The rule as it runs: collect the lotes' prices, stop at the first that has none, and
      take them only if they all agree. */
  method ResolveKiloPrice(book: Book, q: Query) returns (p: Option<KiloPrice>)
    ensures p == Resolve(book, q)
  {
    var person := EntryOn(PricesOf(book.employees, q.employee), q.week);
    if person.Some? && person.value.price.Some? {
      return Some(KiloPrice(person.value.price.value, Persona));
    }
    if |q.plots| > 0 {
      var prices: seq<Cents>, allPriced := [], true;
      for i := 0 to |q.plots|
        invariant allPriced && |prices| == i
        invariant forall j :: 0 <= j < i ==> SpecialPrice(book.plots, q.plots[j], q.week) == Some(prices[j])
      {
        var row := EntryOn(PricesOf(book.plots, q.plots[i]), q.week);
        if row.None? || row.value.price.None? {
          allPriced := false;
          assert q.plots[i] in q.plots && LotePrice(book.plots, q.plots, q.week).None?;
          break;
        }
        prices := prices + [row.value.price.value];
      }
      if allPriced {
        assert forall j :: 0 <= j < |prices| ==> prices[j] in prices && q.plots[j] in q.plots;
        if forall p :: p in prices ==> p == prices[0] { return Some(KiloPrice(prices[0], Lote)); }
      }
    }
    p := WeekOrFarm(book, q.week);
  }

  /* ---- the server's two readers of a week's price ---- */

  /** `kiloPriceOf`: nothing applying is zero. */
  function KiloPriceOf(book: Book, q: Query): (p: KiloPrice) {
    var r := Resolve(book, q);
    if r.Some? then r.value else KiloPrice(0, Finca)
  }

  /** `weekPriceOf`: the override, else the newest base row that applies, else the farm's
      price as it stands. `sorted` is the history newest first. */
  function WeekPriceOf(book: Book, sorted: seq<Entry>, week: Day): (p: Cents) {
    var o, b := Override(book.weeks, week), FirstApplying(sorted, week);
    if o.Some? then o.value
    else if b.Some? && b.value.price.Some? then b.value.price.value
    else if book.farm.Some? then book.farm.value
    else 0
  }

  /** Where nothing applies the server's reader of a weighing's price says nothing at all, as
      the farm's; otherwise it is the rule's answer. */
  lemma KiloPriceExactly(book: Book, q: Query, k: KiloPrice)
    ensures KiloPriceOf(book, q) == k
       <==> Resolve(book, q) == Some(k) || (Resolve(book, q).None? && k == KiloPrice(0, Finca))
  {
  }

  /** The server's reader of a week's price, over the histories: the week's own, else the base
      row in force, else the farm's as it stands, else nothing. */
  lemma WeekPriceExactly(book: Book, sorted: seq<Entry>, q: Query, p: Cents)
    requires OnePerDate(book.base) && SameEntries(book.base, sorted) && NewestFirst(sorted)
    ensures WeekPriceOf(book, sorted, q.week) == p
       <==> || WeekSays(book, q, p)
            || (NoWeek(book, q) && BaseCarries(book.base, q.week, p))
            || (NoWeek(book, q) && (forall x :: !BaseCarries(book.base, q.week, x))
                && p == if book.farm.Some? then book.farm.value else 0)
  {
    hide Override, InForce, WeekCarries, BaseCarries;
    SortThenFindAgrees(book.base, sorted, q.week);
    forall x ensures Override(book.weeks, q.week) == Some(x) <==> WeekCarries(book.weeks, q.week, x) {
      OverrideExactly(book.weeks, q.week, x);
    }
    forall x ensures InForce(book.base, q.week).Some? && InForce(book.base, q.week).value.price == Some(x)
                <==> BaseCarries(book.base, q.week, x)
    {
      BaseExactly(book.base, q.week, x);
    }
    var o, row := Override(book.weeks, q.week), InForce(book.base, q.week);
    if o.Some? { assert WeekSays(book, q, o.value); }
    if row.Some? && row.value.price.Some? { assert BaseCarries(book.base, q.week, row.value.price.value); }
  }

  /** With no person or lote price the two readers agree, except for a negative farm price
      that no override and no base row hides. */
  lemma WeekReadersAgree(book: Book, sorted: seq<Entry>, q: Query)
    requires OnePerDate(book.base) && SameEntries(book.base, sorted) && NewestFirst(sorted)
    requires SpecialPrice(book.employees, q.employee, q.week).None? && LotePrice(book.plots, q.plots, q.week).None?
    ensures KiloPriceOf(book, q).cents == WeekPriceOf(book, sorted, q.week)
       <==> Override(book.weeks, q.week).Some? || BaseOn(book.base, None, q.week).Some?
            || book.farm.None? || book.farm.value >= 0
  {
    SortThenFindAgrees(book.base, sorted, q.week);
  }
}
