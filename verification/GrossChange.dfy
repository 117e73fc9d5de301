/** Why an approved figure no longer holds: the refusal's details joined with what the screen
    was showing, and whether the reasons given are the true ones. */
module GrossChange {
  import opened Text
  import opened PriceRules
  import opened Settlement
  import opened SettlementRuns
  import opened Payroll

  datatype RepricedWeek = RepricedWeek(week: Day, was: Cents, now: Cents, lines: nat)

  datatype Change = Change(
    before: Cents,
    after: Cents,
    delta: Cents,
    addedIds: seq<Id>,
    removedIds: seq<Id>,
    added: seq<Line>,
    removed: seq<Line>,
    repriced: seq<RepricedWeek>,
    causeIsKnown: bool)

  datatype Cause = Entered(count: nat) | Left(count: nat)
                 | PriceMoved(week: Day, was: Cents, now: Cents) | Unexplained(known: bool)

  /* ---- the join ---- */

  /** A JavaScript map built from pairs: the last line under an id wins. */
  function ById(ls: seq<Line>, id: Id): (l: Option<Line>)
    ensures l.Some? ==> l.value in ls && l.value.payable == id
    ensures l.None? <==> id !in Payables(ls)
  {
    if ls == [] then None
    else
      var n := |ls| - 1;
      assert ls == ls[..n] + [ls[n]];
      assert Payables(ls) == Payables(ls[..n]) + [ls[n].payable];
      if ls[n].payable == id then Some(ls[n]) else ById(ls[..n], id)
  }

  function Resolved(ls: seq<Line>, ids: seq<Id>): (found: seq<Line>) {
    if ids == [] then []
    else
      var rest, l := Resolved(ls, ids[..|ids| - 1]), ById(ls, ids[|ids| - 1]);
      if l.Some? then rest + [l.value] else rest
  }

  /** The approved lines a week's price could have moved. */
  function WeeklyOf(ls: seq<Line>, week: Day): (kept: seq<Line>)
    ensures forall l :: l in kept <==> l in ls && l.week == week && l.source.Some?
  {
    if ls == [] then []
    else
      assert ls == [ls[0]] + ls[1..];
      if ls[0].week == week && ls[0].source.Some? then [ls[0]] + WeeklyOf(ls[1..], week) else WeeklyOf(ls[1..], week)
  }

  /** Reported only when its lines all carried one price, and not the one in force now. */
  function Repriced(approved: seq<Line>, row: WeekRow): (w: Option<RepricedWeek>) {
    var lines := WeeklyOf(approved, row.weekStart);
    if lines == [] || (exists l :: l in lines && l.rate != lines[0].rate) || lines[0].rate == row.price then None
    else Some(RepricedWeek(row.weekStart, lines[0].rate, row.price, |lines|))
  }

  function AllRepriced(approved: seq<Line>, rows: seq<WeekRow>): (ws: seq<RepricedWeek>) {
    if rows == [] then []
    else
      var rest, w := AllRepriced(approved, rows[..|rows| - 1]), Repriced(approved, rows[|rows| - 1]);
      if w.Some? then rest + [w.value] else rest
  }

  function Explain(d: GrossDetails, approved: seq<Line>, now: seq<Line>): (c: Change) {
    Change(d.expected, d.actual, d.actual - d.expected, d.added, d.removed,
           Resolved(now, d.added), Resolved(approved, d.removed), AllRepriced(approved, d.weeks), d.provided)
  }

  method ExplainGrossChange(d: GrossDetails, approved: seq<Line>, now: seq<Line>) returns (c: Change)
    ensures c == Explain(d, approved, now)
  {
    var repriced: seq<RepricedWeek> := [];
    for i := 0 to |d.weeks|
      invariant repriced == AllRepriced(approved, d.weeks[..i])
    {
      assert d.weeks[..i + 1][..i] == d.weeks[..i];
      var row := d.weeks[i];
      var lines := WeeklyOf(approved, row.weekStart);
      if lines == [] { continue; }
      var was := lines[0].rate;
      if exists l :: l in lines && l.rate != was { continue; }
      if was == row.price { continue; }
      repriced := repriced + [RepricedWeek(row.weekStart, was, row.price, |lines|)];
    }
    assert d.weeks[..|d.weeks|] == d.weeks;
    c := Change(d.expected, d.actual, d.actual - d.expected, d.added, d.removed,
                Resolved(now, d.added), Resolved(approved, d.removed), repriced, d.provided);
  }

  function Moves(ws: seq<RepricedWeek>): (out: seq<Cause>)
    ensures |out| == |ws| && forall i :: 0 <= i < |ws| ==> out[i] == PriceMoved(ws[i].week, ws[i].was, ws[i].now)
  {
    seq(|ws|, i requires 0 <= i < |ws| => PriceMoved(ws[i].week, ws[i].was, ws[i].now))
  }

  function Causes(c: Change): (out: seq<Cause>) {
    var all := (if c.addedIds == [] then [] else [Entered(|c.addedIds|)])
             + (if c.removedIds == [] then [] else [Left(|c.removedIds|)])
             + Moves(c.repriced);
    if all == [] then [Unexplained(c.causeIsKnown)] else all
  }

  /** `reasonsFor`, the causes without their Spanish. */
  method ReasonsFor(c: Change) returns (out: seq<Cause>)
    ensures out == Causes(c)
  {
    out := [];
    if |c.addedIds| > 0 { out := out + [Entered(|c.addedIds|)]; }
    if |c.removedIds| > 0 { out := out + [Left(|c.removedIds|)]; }
    ghost var head := out;
    for i := 0 to |c.repriced|
      invariant out == head + Moves(c.repriced)[..i]
    {
      out := out + [PriceMoved(c.repriced[i].week, c.repriced[i].was, c.repriced[i].now)];
    }
    assert Moves(c.repriced)[..|c.repriced|] == Moves(c.repriced);
    if |out| == 0 { out := [Unexplained(c.causeIsKnown)]; }
  }

  /** What the explanation of a refusal shows: the approved figure and the one now, and the lines
      behind the ids, those that came from the list as it is, those that left from the list
      that was approved. */
  lemma ExplainsExactly(d: GrossDetails, approved: seq<Line>, now: seq<Line>, l: Line)
    requires LinesDistinct(approved) && LinesDistinct(now)
    ensures var c := Explain(d, approved, now);
            && c.before == d.expected && c.after == d.actual && c.delta == c.after - c.before
            && c.addedIds == d.added && c.removedIds == d.removed && c.causeIsKnown == d.provided
            && (l in c.added <==> l in now && l.payable in d.added)
            && (l in c.removed <==> l in approved && l.payable in d.removed)
  {
    hide AllRepriced;
    ResolvedExactly(now, d.added, l);
    ResolvedExactly(approved, d.removed, l);
  }

  lemma {:induction false} ResolvedExactly(ls: seq<Line>, ids: seq<Id>, l: Line)
    requires LinesDistinct(ls)
    ensures l in Resolved(ls, ids) <==> l in ls && l.payable in ids
  {
    if ids != [] {
      var n := |ids| - 1;
      assert ids == ids[..n] + [ids[n]];
      ResolvedExactly(ls, ids[..n], l);
      if l in ls { ByIdIs(ls, l); }
    }
  }

  lemma {:induction false} WeeklyConcat(a: seq<Line>, b: seq<Line>, week: Day)
    ensures WeeklyOf(a + b, week) == WeeklyOf(a, week) + WeeklyOf(b, week)
  {
    if a == [] {
      assert a + b == b;
    } else {
      assert (a + b)[1..] == a[1..] + b;
      WeeklyConcat(a[1..], b, week);
    }
  }

  /* ---- where the difference comes from ---- */

  /** What the lines still pending gained or lost since they were approved. */
  function Drift(approved: seq<Line>, now: seq<Line>): (cents: Cents) {
    if approved == [] then 0
    else
      var l := approved[|approved| - 1];
      var n := ById(now, l.payable);
      Drift(approved[..|approved| - 1], now) + if n.Some? then n.value.amount - l.amount else 0
  }

  /** What was approved for lines that are pending no more. */
  function Gone(approved: seq<Line>, now: seq<Line>): (cents: Cents) {
    if approved == [] then 0
    else
      var l := approved[|approved| - 1];
      Gone(approved[..|approved| - 1], now) + if ById(now, l.payable).None? then l.amount else 0
  }

  lemma {:induction false} NamedNone(ls: seq<Line>, ids: seq<Id>, p: Id)
    requires forall l :: l in ls ==> l.payable != p
    ensures Named(ls, ids + [p]) == Named(ls, ids)
  {
    if ls != [] {
      assert ls == [ls[0]] + ls[1..];
      NamedNone(ls[1..], ids, p);
    }
  }

  lemma {:induction false} NamedOneMore(ls: seq<Line>, ids: seq<Id>, p: Id)
    requires LinesDistinct(ls) && p !in ids
    ensures Gross(Named(ls, ids + [p]))
            == Gross(Named(ls, ids)) + (if ById(ls, p).Some? then ById(ls, p).value.amount else 0)
  {
    hide Gross, ById;
    if ls == [] {
      assert Payables(ls) == [];
    } else {
      var l, rest := ls[0], ls[1..];
      assert ls == [l] + rest;
      NamedOneMore(rest, ids, p);
      GrossCons(l, Named(rest, ids + [p]));
      GrossCons(l, Named(rest, ids));
      ByIdIs(ls, l);
      if l.payable == p {
        forall x | x in rest ensures x.payable != p { var k :| 0 <= k < |rest| && rest[k] == x; assert ls[k + 1] == x; }
        NamedNone(rest, ids, p);
      } else {
        ByIdTail(l, rest, p);
      }
    }
  }

  lemma ByIdIs(ls: seq<Line>, l: Line)
    requires LinesDistinct(ls) && l in ls
    ensures ById(ls, l.payable) == Some(l)
  {
    hide ById;
    var k :| 0 <= k < |ls| && ls[k] == l;
    assert Payables(ls)[k] == l.payable;
    var found := ById(ls, l.payable).value;
    var j :| 0 <= j < |ls| && ls[j] == found;
  }

  lemma {:induction false} ByIdTail(l: Line, rest: seq<Line>, p: Id)
    requires l.payable != p
    ensures ById([l] + rest, p) == ById(rest, p)
  {
    if rest == [] {
      assert ([l] + rest)[..0] == [];
    } else {
      var n := |rest| - 1;
      assert ([l] + rest)[..n + 1] == [l] + rest[..n];
      ByIdTail(l, rest[..n], p);
    }
  }

  lemma {:induction false} NamedAgainst(approved: seq<Line>, now: seq<Line>)
    requires LinesDistinct(approved) && LinesDistinct(now)
    ensures Gross(Named(now, Payables(approved))) - Gross(approved) == Drift(approved, now) - Gone(approved, now)
  {
    hide ById;
    if approved == [] {
      NoneNamed(now);
      assert Payables(approved) == [];
    } else {
      var n := |approved| - 1;
      var front, l := approved[..n], approved[n];
      assert Payables(approved) == Payables(front) + [l.payable];
      NamedAgainst(front, now);
      NamedOneMore(now, Payables(front), l.payable);
    }
  }

  lemma {:induction false} NoneNamed(ls: seq<Line>)
    ensures Named(ls, []) == []
  {
    if ls != [] { NoneNamed(ls[1..]); }
  }

  ghost predicate NoRepeat(ids: seq<int>) { forall i, j :: 0 <= i < j < |ids| ==> ids[i] != ids[j] }

  /** What a refusal says came and went: the pending work that was not asked for, and the work
      asked for that is pending no more, each once; and every week it would settle, once, at
      the price in force. With nothing named, the lists are empty and say so. */
  lemma DetailsAreExact(book: Book, all: seq<Line>, wanted: seq<Id>, expected: Cents)
    ensures var chosen := Chosen(all, wanted);
            var d := DetailsOf(book, all, chosen, wanted, expected);
            && d.expected == expected && d.actual == Gross(chosen) && (d.provided <==> wanted != [])
            && (forall id :: id in d.added <==> wanted != [] && id in Payables(all) && id !in wanted)
            && (forall id :: id in d.removed <==> id in wanted && id !in Payables(all))
            && NoRepeat(d.removed)
            && (forall i, j :: 0 <= i < j < |d.weeks| ==> d.weeks[i].weekStart != d.weeks[j].weekStart)
            && (forall row :: row in d.weeks
                      <==> row.weekStart in WeeksOf(chosen) && row.price == PriceAt(book)(row.weekStart))
  {
    hide WeekPriceOf, NewestFirstOf, Gross, Chosen;
    var chosen := Chosen(all, wanted);
    OnceDistinct(wanted);
    MissingDistinct(Once(wanted), Payables(all));
    OnceDistinct(WeeksOf(chosen));
    forall row
      ensures row in WeekPrices(book, Once(WeeksOf(chosen)))
              <==> row.weekStart in WeeksOf(chosen) && row.price == PriceAt(book)(row.weekStart)
    {
      WeekListed(book, chosen, row.weekStart);
    }
  }

  lemma {:induction false} OnceDistinct(ids: seq<Id>)
    ensures NoRepeat(Once(ids))
  {
    if ids != [] {
      var n := |ids| - 1;
      OnceDistinct(ids[..n]);
      var front := Once(ids[..n]);
      forall i | 0 <= i < |front| ensures front[i] in ids[..n] { assert front[i] in front; }
    }
  }

  lemma {:induction false} MissingDistinct(ids: seq<Id>, from: seq<Id>)
    requires NoRepeat(ids)
    ensures NoRepeat(Missing(ids, from))
  {
    if ids != [] {
      var rest := ids[1..];
      MissingDistinct(rest, from);
      var out := Missing(rest, from);
      forall j | 0 <= j < |out| ensures out[j] != ids[0] {
        assert out[j] in out;
        var k :| 0 <= k < |rest| && rest[k] == out[j];
        assert ids[k + 1] == out[j];
      }
    }
  }

  lemma {:induction false} MissingSnoc(ids: seq<Id>, p: Id, from: seq<Id>)
    ensures Missing(ids + [p], from) == Missing(ids, from) + if p in from then [] else [p]
  {
    if ids == [] {
      assert ids + [p] == [p] && [p][1..] == [];
    } else {
      assert (ids + [p])[1..] == ids[1..] + [p];
      MissingSnoc(ids[1..], p, from);
    }
  }

  lemma {:induction false} OnceOfDistinct(ids: seq<Id>)
    requires NoRepeat(ids)
    ensures Once(ids) == ids
  {
    if ids != [] {
      var n := |ids| - 1;
      OnceOfDistinct(ids[..n]);
      forall i | 0 <= i < n ensures ids[..n][i] != ids[n] { assert ids[..n][i] == ids[i]; }
      assert ids == ids[..n] + [ids[n]];
    }
  }

  lemma ResolvedSnoc(ls: seq<Line>, ids: seq<Id>, l: Line)
    requires ById(ls, l.payable) == Some(l)
    ensures Gross(Resolved(ls, ids + [l.payable])) == Gross(Resolved(ls, ids)) + l.amount
  {
    hide ById;
    assert (ids + [l.payable])[..|ids|] == ids;
    var shown := Resolved(ls, ids);
    assert (shown + [l])[..|shown|] == shown;
  }

  lemma GoneSnoc(front: seq<Line>, l: Line, now: seq<Line>)
    ensures Gone(front + [l], now) == Gone(front, now) + if l.payable in Payables(now) then 0 else l.amount
  {
    assert (front + [l])[..|front|] == front;
  }

  /** The lines shown as gone are worth what was approved for them. */
  lemma {:induction false} GoneIsShown(approved: seq<Line>, now: seq<Line>, k: nat)
    requires LinesDistinct(approved) && k <= |approved|
    ensures Gross(Resolved(approved, Missing(Payables(approved[..k]), Payables(now)))) == Gone(approved[..k], now)
  {
    hide ById, Missing, Resolved, Gone, Gross;
    if k == 0 {
      NoneGone(approved, now);
      assert approved[..0] == [];
    } else {
      var front, l := approved[..k - 1], approved[k - 1];
      GoneIsShown(approved, now, k - 1);
      assert approved[..k] == front + [l];
      assert Payables(approved[..k]) == Payables(front) + [l.payable];
      MissingSnoc(Payables(front), l.payable, Payables(now));
      ByIdIs(approved, l);
      var missing := Missing(Payables(front), Payables(now));
      assert missing + [] == missing;
      ResolvedSnoc(approved, missing, l);
      GoneSnoc(front, l, now);
    }
  }

  lemma NoneGone(approved: seq<Line>, now: seq<Line>)
    ensures Gross(Resolved(approved, Missing(Payables([]), Payables(now)))) == Gone([], now)
  {
    assert Payables([]) == [];
  }

  /** The refusal of a settlement whose work was named, against what was approved: the figure
      moved by what the surviving lines gained, less what was approved for the lines shown as
      gone. Whatever came in is no part of it. */
  lemma DeltaIsDriftLessGone(book: Book, approved: seq<Line>, now: seq<Line>)
    requires approved != [] && LinesDistinct(approved) && LinesDistinct(now)
    ensures var ids := Payables(approved);
            var c := Explain(DetailsOf(book, now, Chosen(now, ids), ids, Gross(approved)), approved, now);
            c.delta == Drift(approved, now) - Gone(approved, now) && Gross(c.removed) == Gone(approved, now)
  {
    hide Resolved, Missing, Once, Drift, Gone, WeekPrices, AllRepriced;
    assert Payables(approved) != [];
    NamedAgainst(approved, now);
    assert approved[..|approved|] == approved;
    OnceOfDistinct(Payables(approved));
    GoneIsShown(approved, now, |approved|);
  }

  /** The lines shown as newcomers are worth what is pending beside the approved work. */
  lemma {:induction false} AddedIsShown(now: seq<Line>, ids: seq<Id>, k: nat)
    requires LinesDistinct(now) && k <= |now|
    ensures Gross(Resolved(now, Missing(Payables(now[..k]), ids))) == Gross(Without(now[..k], ids))
  {
    hide ById, Missing, Resolved, Without, Gross;
    if k == 0 {
      NoneAdded(now, ids);
      assert now[..0] == [];
    } else {
      var front, l := now[..k - 1], now[k - 1];
      AddedIsShown(now, ids, k - 1);
      assert now[..k] == front + [l];
      assert Payables(now[..k]) == Payables(front) + [l.payable];
      MissingSnoc(Payables(front), l.payable, ids);
      ByIdIs(now, l);
      var missing := Missing(Payables(front), ids);
      assert missing + [] == missing;
      ResolvedSnoc(now, missing, l);
      WithoutSnoc(front, l, ids);
    }
  }

  lemma NoneAdded(now: seq<Line>, ids: seq<Id>)
    ensures Gross(Resolved(now, Missing(Payables([]), ids))) == Gross(Without([], ids))
  {
    assert Payables([]) == [];
  }

  lemma {:induction false} WithoutConcat(front: seq<Line>, l: Line, ids: seq<Id>)
    ensures Without(front + [l], ids) == Without(front, ids) + if l.payable in ids then [] else [l]
  {
    if front == [] {
      assert [] + [l] == [l] && [l][1..] == [];
    } else {
      assert (front + [l])[1..] == front[1..] + [l];
      WithoutConcat(front[1..], l, ids);
    }
  }

  lemma WithoutSnoc(front: seq<Line>, l: Line, ids: seq<Id>)
    ensures Gross(Without(front + [l], ids)) == Gross(Without(front, ids)) + if l.payable in ids then 0 else l.amount
  {
    hide Without;
    WithoutConcat(front, l, ids);
    var kept := Without(front, ids);
    assert (kept + [l])[..|kept|] == kept && kept + [] == kept;
  }

  /** So counting the newcomers in, as the two lists suggest, is right only when what is pending
      beside the approved work is worth nothing. */
  lemma NewcomersDoNotCount(book: Book, approved: seq<Line>, now: seq<Line>)
    requires approved != [] && LinesDistinct(approved) && LinesDistinct(now)
    ensures var ids := Payables(approved);
            var c := Explain(DetailsOf(book, now, Chosen(now, ids), ids, Gross(approved)), approved, now);
            && Gross(c.added) == Gross(Without(now, ids))
            && (c.delta == Gross(c.added) - Gross(c.removed) + Drift(approved, now) <==> Gross(Without(now, ids)) == 0)
  {
    hide Resolved, Missing, Once, Drift, Gone, WeekPrices, AllRepriced, Without;
    DeltaIsDriftLessGone(book, approved, now);
    AddedIsShown(now, Payables(approved), |now|);
    assert now[..|now|] == now;
  }

  /* ---- whether the reasons are true ---- */

  /** Weekly lines at their week's price, as `price` had it. */
  ghost predicate AtWeekPrice(ls: seq<Line>, price: Day -> Cents) {
    forall l :: l in ls && l.source.Some? ==> l.rate == price(l.week) && l.amount == Worth(l.quantity, l.rate)
  }

  /** A line kept its work: same quantity and week, and a frozen one its amount. */
  predicate SameWork(a: Line, b: Line) {
    a.week == b.week && a.quantity == b.quantity
    && (a.source.Some? <==> b.source.Some?)
    && (a.source.None? ==> a.amount == b.amount)
  }

  ghost predicate WorkUnedited(approved: seq<Line>, now: seq<Line>) {
    forall a, b :: a in approved && b in now && a.payable == b.payable ==> SameWork(a, b)
  }

  function PriceAt(book: Book): Day -> Cents { (m: Day) => WeekPriceOf(book, NewestFirstOf(book.base), m) }

  lemma {:induction false} RepricedAmong(approved: seq<Line>, rows: seq<WeekRow>, w: RepricedWeek)
    ensures w in AllRepriced(approved, rows) <==> exists row :: row in rows && Repriced(approved, row) == Some(w)
  {
    if rows != [] {
      var n := |rows| - 1;
      assert rows == rows[..n] + [rows[n]];
      RepricedAmong(approved, rows[..n], w);
    }
  }

  lemma WeekListed(book: Book, chosen: seq<Line>, week: Day)
    ensures week in WeeksOf(chosen) ==> WeekRow(week, PriceAt(book)(week)) in WeekPrices(book, Once(WeeksOf(chosen)))
    ensures forall row :: row in WeekPrices(book, Once(WeeksOf(chosen))) ==>
                row.weekStart in WeeksOf(chosen) && row.price == PriceAt(book)(row.weekStart)
  {
    hide WeekPriceOf, NewestFirstOf;
    var days := Once(WeeksOf(chosen));
    if week in WeeksOf(chosen) {
      var k :| 0 <= k < |days| && days[k] == week;
      assert WeekPrices(book, days)[k] == WeekRow(week, PriceAt(book)(week));
    }
    forall row | row in WeekPrices(book, days)
      ensures row.weekStart in WeeksOf(chosen) && row.price == PriceAt(book)(row.weekStart)
    {
      var k :| 0 <= k < |days| && WeekPrices(book, days)[k] == row;
      assert days[k] in days;
    }
  }

  /** A week is reported exactly when the settlement still spans it, some approved line was
      priced by it, and its price moved: from what it was to what it is. */
  lemma RepricedExact(book: Book, was: Day -> Cents, approved: seq<Line>, chosen: seq<Line>, w: RepricedWeek)
    requires AtWeekPrice(approved, was)
    ensures w in AllRepriced(approved, WeekPrices(book, Once(WeeksOf(chosen))))
       <==> w.week in WeeksOf(chosen) && WeeklyOf(approved, w.week) != [] && was(w.week) != PriceAt(book)(w.week)
            && w == RepricedWeek(w.week, was(w.week), PriceAt(book)(w.week), |WeeklyOf(approved, w.week)|)
  {
    hide WeekPriceOf, NewestFirstOf, Worth, WeekPrices, WeeksOf, Once;
    var rows := WeekPrices(book, Once(WeeksOf(chosen)));
    RepricedAmong(approved, rows, w);
    WeekListed(book, chosen, w.week);
    forall row | row in rows
      ensures Repriced(approved, row) == Some(w) <==>
                row.weekStart == w.week && WeeklyOf(approved, w.week) != [] && was(w.week) != row.price
                && w == RepricedWeek(w.week, was(w.week), row.price, |WeeklyOf(approved, w.week)|)
    {
      OnePriceOfWeek(approved, was, row);
    }
  }

  lemma OnePriceOfWeek(approved: seq<Line>, was: Day -> Cents, row: WeekRow)
    requires AtWeekPrice(approved, was)
    ensures var lines := WeeklyOf(approved, row.weekStart);
            Repriced(approved, row) == if lines == [] || was(row.weekStart) == row.price then None
                                       else Some(RepricedWeek(row.weekStart, was(row.weekStart), row.price, |lines|))
  {
    hide Worth;
    var lines := WeeklyOf(approved, row.weekStart);
    if lines != [] { assert lines[0] in lines; }
  }

  ghost predicate InRepriced(ws: seq<RepricedWeek>, week: Day) { exists w :: w in ws && w.week == week }

  /** Lines outside the reported weeks kept their amount: the drift is theirs alone. */
  lemma OnlyRepricedDrift(book: Book, was: Day -> Cents, approved: seq<Line>, now: seq<Line>, a: Line, b: Line)
    requires AtWeekPrice(approved, was) && AtWeekPrice(now, PriceAt(book)) && WorkUnedited(approved, now)
    requires a in approved && b in now && a.payable == b.payable
    ensures var chosen := Chosen(now, Payables(approved));
            a.amount == b.amount || InRepriced(AllRepriced(approved, WeekPrices(book, Once(WeeksOf(chosen)))), a.week)
  {
    hide WeekPriceOf, NewestFirstOf, Worth, WeekPrices, Once, AllRepriced;
    var ids := Payables(approved);
    var i :| 0 <= i < |approved| && approved[i] == a;
    assert ids[i] == b.payable;
    var chosen := Chosen(now, ids);
    assert b in chosen;
    var k :| 0 <= k < |chosen| && chosen[k] == b;
    assert WeeksOf(chosen)[k] == a.week && SameWork(a, b);
    if a.source.Some? && was(a.week) != PriceAt(book)(a.week) {
      assert a in WeeklyOf(approved, a.week);
      var w := RepricedWeek(a.week, was(a.week), PriceAt(book)(a.week), |WeeklyOf(approved, a.week)|);
      RepricedExact(book, was, approved, chosen, w);
      assert w in AllRepriced(approved, WeekPrices(book, Once(WeeksOf(chosen)))) && w.week == a.week;
    }
  }

  /** What the report of one week should say, when its price was `was` at the approval. */
  function TrueReport(approved: seq<Line>, row: WeekRow, was: Cents): (w: Option<RepricedWeek>) {
    var n := |WeeklyOf(approved, row.weekStart)|;
    if n == 0 || was == row.price then None else Some(RepricedWeek(row.weekStart, was, row.price, n))
  }

  predicate AllAt(lines: seq<Line>, rate: Cents) { forall l :: l in lines ==> l.rate == rate }

  /** The condition a week is reported truly under: no approved line was priced weekly, or all
      of them carried the week's price, or they differ among themselves and the price stayed. */
  predicate ReportsTruly(approved: seq<Line>, week: Day, was: Cents, price: Cents) {
    var lines := WeeklyOf(approved, week);
    lines == [] || AllAt(lines, was) || (was == price && exists a, b :: a in lines && b in lines && a.rate != b.rate)
  }

  /** One price a week hides that a person's own price or an agreed lote's is no week price:
      exactly there the report of the week is false. */
  lemma RepricedTruthful(approved: seq<Line>, row: WeekRow, was: Cents)
    ensures Repriced(approved, row) == TrueReport(approved, row, was)
       <==> ReportsTruly(approved, row.weekStart, was, row.price)
  {
    var lines := WeeklyOf(approved, row.weekStart);
    if lines != [] { assert lines[0] in lines; }
  }

  /** And the whole list is true exactly when each week the settlement still spans is. */
  lemma ReportTruthful(book: Book, was: Day -> Cents, approved: seq<Line>, chosen: seq<Line>)
    ensures var rows := WeekPrices(book, Once(WeeksOf(chosen)));
            && (forall w :: w in AllRepriced(approved, rows) <==>
                  exists row :: row in rows && TrueReport(approved, row, was(row.weekStart)) == Some(w))
            <==> forall week :: week in WeeksOf(chosen) ==> ReportsTruly(approved, week, was(week), PriceAt(book)(week))
  {
    hide WeekPriceOf, NewestFirstOf, WeekPrices, WeeksOf, Once, PriceAt, ReportsTruly, TrueReport, Repriced,
         AllRepriced;
    var rows := WeekPrices(book, Once(WeeksOf(chosen)));
    forall row | row in rows
      ensures row == WeekRow(row.weekStart, PriceAt(book)(row.weekStart)) && row.weekStart in WeeksOf(chosen)
      ensures Repriced(approved, row) == TrueReport(approved, row, was(row.weekStart))
          <==> ReportsTruly(approved, row.weekStart, was(row.weekStart), row.price)
    {
      WeekListed(book, chosen, row.weekStart);
      RepricedTruthful(approved, row, was(row.weekStart));
    }
    forall week | week in WeeksOf(chosen) ensures WeekRow(week, PriceAt(book)(week)) in rows {
      WeekListed(book, chosen, week);
    }
    forall w { RepricedAmong(approved, rows, w); }
    ReportsAgree(approved, rows, was);
  }

  /** Two ways of reporting rows of different weeks list the same weeks exactly when they agree
      row by row. */
  lemma ReportsAgree(approved: seq<Line>, rows: seq<WeekRow>, was: Day -> Cents)
    requires forall x, y :: x in rows && y in rows && x.weekStart == y.weekStart ==> x == y
    ensures (forall w :: (exists row :: row in rows && Repriced(approved, row) == Some(w)) <==>
                exists row :: row in rows && TrueReport(approved, row, was(row.weekStart)) == Some(w))
       <==> forall row :: row in rows ==> Repriced(approved, row) == TrueReport(approved, row, was(row.weekStart))
  {
    hide WeeklyOf;
    forall row, w | Repriced(approved, row) == Some(w) || TrueReport(approved, row, was(row.weekStart)) == Some(w)
      ensures w.week == row.weekStart
    {
    }
    hide Repriced, TrueReport;
    if forall w :: (exists row :: row in rows && Repriced(approved, row) == Some(w)) <==>
                exists row :: row in rows && TrueReport(approved, row, was(row.weekStart)) == Some(w)
    {
      forall row | row in rows ensures Repriced(approved, row) == TrueReport(approved, row, was(row.weekStart)) {
        var a, b := Repriced(approved, row), TrueReport(approved, row, was(row.weekStart));
        if a.Some? {
          var other :| other in rows && TrueReport(approved, other, was(other.weekStart)) == a;
          assert a.value.week == other.weekStart;
        }
        if b.Some? {
          var other :| other in rows && Repriced(approved, other) == b;
          assert b.value.week == other.weekStart;
        }
      }
    }
  }

  lemma {:induction false} NoDrift(approved: seq<Line>, now: seq<Line>)
    requires forall a, b :: a in approved && b in now && a.payable == b.payable ==> a.amount == b.amount
    ensures Drift(approved, now) == 0
  {
    if approved != [] {
      var n := |approved| - 1;
      assert approved[n] in approved && approved == approved[..n] + [approved[n]];
      NoDrift(approved[..n], now);
    }
  }

  lemma {:induction false} NothingGone(approved: seq<Line>, now: seq<Line>)
    requires forall a :: a in approved ==> a.payable in Payables(now)
    ensures Gone(approved, now) == 0
  {
    if approved != [] {
      var n := |approved| - 1;
      assert approved[n] in approved && approved == approved[..n] + [approved[n]];
      NothingGone(approved[..n], now);
    }
  }

  /** Some approved work is pending no more. */
  ghost predicate SomeLeft(approved: seq<Line>, now: seq<Line>) {
    exists l :: l in approved && l.payable !in Payables(now)
  }

  /** Some week still settled, whose weekly lines were all approved at one price, has another
      price now. */
  ghost predicate SomeWeekUnlike(book: Book, approved: seq<Line>, chosen: seq<Line>) {
    exists week, rate :: week in WeeksOf(chosen) && WeeklyOf(approved, week) != []
                         && AllAt(WeeklyOf(approved, week), rate) && rate != PriceAt(book)(week)
  }

  lemma RepricedSome(approved: seq<Line>, row: WeekRow)
    ensures Repriced(approved, row).Some?
       <==> WeeklyOf(approved, row.weekStart) != []
            && exists rate :: AllAt(WeeklyOf(approved, row.weekStart), rate) && rate != row.price
  {
    var lines := WeeklyOf(approved, row.weekStart);
    if lines != [] {
      assert lines[0] in lines;
      if Repriced(approved, row).Some? { assert AllAt(lines, lines[0].rate); }
    }
  }

  lemma ReportedWeek(book: Book, approved: seq<Line>, chosen: seq<Line>, w: RepricedWeek)
    requires w in AllRepriced(approved, WeekPrices(book, Once(WeeksOf(chosen))))
    ensures SomeWeekUnlike(book, approved, chosen)
  {
    hide WeekPriceOf, NewestFirstOf, WeekPrices, WeeksOf, Once, PriceAt, Repriced, AllRepriced, AllAt, WeeklyOf;
    var rows := WeekPrices(book, Once(WeeksOf(chosen)));
    RepricedAmong(approved, rows, w);
    var row :| row in rows && Repriced(approved, row) == Some(w);
    WeekListed(book, chosen, row.weekStart);
    RepricedSome(approved, row);
    var rate :| AllAt(WeeklyOf(approved, row.weekStart), rate) && rate != row.price;
    assert row.weekStart in WeeksOf(chosen) && rate != PriceAt(book)(row.weekStart);
  }

  lemma UnlikeWeekReported(book: Book, approved: seq<Line>, chosen: seq<Line>)
    requires SomeWeekUnlike(book, approved, chosen)
    ensures AllRepriced(approved, WeekPrices(book, Once(WeeksOf(chosen)))) != []
  {
    hide WeekPriceOf, NewestFirstOf, WeekPrices, WeeksOf, Once, PriceAt, Repriced, AllRepriced, AllAt, WeeklyOf;
    var week, rate :| week in WeeksOf(chosen) && WeeklyOf(approved, week) != []
                      && AllAt(WeeklyOf(approved, week), rate) && rate != PriceAt(book)(week);
    var row := WeekRow(week, PriceAt(book)(week));
    WeekListed(book, chosen, week);
    RepricedSome(approved, row);
    RepricedAmong(approved, WeekPrices(book, Once(WeeksOf(chosen))), Repriced(approved, row).value);
  }

  lemma ReportedExactly(book: Book, approved: seq<Line>, chosen: seq<Line>)
    ensures AllRepriced(approved, WeekPrices(book, Once(WeeksOf(chosen)))) != []
       <==> SomeWeekUnlike(book, approved, chosen)
  {
    hide WeekPrices, WeeksOf, Once, AllRepriced, SomeWeekUnlike;
    var ws := AllRepriced(approved, WeekPrices(book, Once(WeeksOf(chosen))));
    if ws != [] { ReportedWeek(book, approved, chosen, ws[0]); }
    if SomeWeekUnlike(book, approved, chosen) { UnlikeWeekReported(book, approved, chosen); }
  }

  lemma RemovedExactly(approved: seq<Line>, now: seq<Line>)
    ensures Missing(Once(Payables(approved)), Payables(now)) != [] <==> SomeLeft(approved, now)
  {
    var ids := Payables(approved);
    var gone := Missing(Once(ids), Payables(now));
    if gone != [] {
      assert gone[0] in gone;
      var i :| 0 <= i < |ids| && ids[i] == gone[0];
      assert approved[i] in approved;
    }
    forall a | a in approved && a.payable !in Payables(now) ensures a.payable in gone {
      var i :| 0 <= i < |approved| && approved[i] == a;
      assert ids[i] in ids;
    }
  }

  /** A figure that moved is given a cause exactly when some approved work left, or some week is
      reported, or what is still pending comes to what was approved for it. */
  lemma CauseShownExactly(book: Book, approved: seq<Line>, now: seq<Line>)
    requires approved != [] && LinesDistinct(approved) && LinesDistinct(now)
    ensures var ids := Payables(approved);
            var chosen := Chosen(now, ids);
            var c := Explain(DetailsOf(book, now, chosen, ids, Gross(approved)), approved, now);
            && (c.delta != 0 ==> c.removedIds != [] || c.repriced != [])
            <==> SomeLeft(approved, now) || SomeWeekUnlike(book, approved, chosen) || Drift(approved, now) == 0
  {
    hide WeekPriceOf, NewestFirstOf, WeekPrices, Gross, Chosen, AllRepriced, ById, Missing, Once, Drift, Gone,
         SomeWeekUnlike;
    var ids := Payables(approved);
    assert ids != [];
    DeltaIsDriftLessGone(book, approved, now);
    ReportedExactly(book, approved, Chosen(now, ids));
    RemovedExactly(approved, now);
    if !SomeLeft(approved, now) { NothingGone(approved, now); }
  }

  /** The screen can name no cause at all exactly when no work came, none left and no week is
      reported; how far the figure moved has no part in it. */
  lemma UnexplainedExactly(book: Book, approved: seq<Line>, now: seq<Line>)
    requires approved != []
    ensures var ids := Payables(approved);
            var chosen := Chosen(now, ids);
            var c := Explain(DetailsOf(book, now, chosen, ids, Gross(approved)), approved, now);
            && Causes(c) == [Unexplained(true)]
            <==> !SomeLeft(approved, now) && !SomeWeekUnlike(book, approved, chosen) && !SomeLeft(now, approved)
  {
    hide WeekPriceOf, NewestFirstOf, WeekPrices, Gross, Chosen, AllRepriced, ById, Missing, Once, SomeWeekUnlike,
         SomeLeft;
    var ids := Payables(approved);
    assert ids != [];
    ReportedExactly(book, approved, Chosen(now, ids));
    RemovedExactly(approved, now);
    AddedExactly(approved, now);
    CausesExactly(Explain(DetailsOf(book, now, Chosen(now, ids), ids, Gross(approved)), approved, now));
  }

  /** The causes in their order: what came, what left, then each week that moved, with its two
      prices; and where there is none of these, one that says so. */
  lemma CausesListed(c: Change, i: nat)
    ensures var out := Causes(c);
            var came, left := if c.addedIds == [] then 0 else 1, if c.removedIds == [] then 0 else 1;
            && |out| == (if came + left + |c.repriced| == 0 then 1 else came + left + |c.repriced|)
            && (c.addedIds != [] ==> out[0] == Entered(|c.addedIds|))
            && (c.removedIds != [] ==> out[came] == Left(|c.removedIds|))
            && (i < |c.repriced| ==>
                  out[came + left + i] == PriceMoved(c.repriced[i].week, c.repriced[i].was, c.repriced[i].now))
            && (came + left + |c.repriced| == 0 ==> out == [Unexplained(c.causeIsKnown)])
  {
    var head := (if c.addedIds == [] then [] else [Entered(|c.addedIds|)])
              + (if c.removedIds == [] then [] else [Left(|c.removedIds|)]);
    assert |Moves(c.repriced)| == |c.repriced|;
    if i < |c.repriced| { assert (head + Moves(c.repriced))[|head| + i] == Moves(c.repriced)[i]; }
  }

  lemma CausesExactly(c: Change)
    ensures Causes(c) == [Unexplained(c.causeIsKnown)] <==> c.addedIds == [] && c.removedIds == [] && c.repriced == []
  {
    var head := (if c.addedIds == [] then [] else [Entered(|c.addedIds|)])
              + (if c.removedIds == [] then [] else [Left(|c.removedIds|)]);
    var all := head + Moves(c.repriced);
    assert |Moves(c.repriced)| == |c.repriced|;
    if all != [] {
      assert head == [] ==>
        Moves(c.repriced)[0] == PriceMoved(c.repriced[0].week, c.repriced[0].was, c.repriced[0].now);
      assert !all[0].Unexplained?;
    }
  }

  lemma AddedExactly(approved: seq<Line>, now: seq<Line>)
    ensures Missing(Payables(now), Payables(approved)) != [] <==> SomeLeft(now, approved)
  {
    var ids := Payables(now);
    var came := Missing(ids, Payables(approved));
    if came != [] {
      assert came[0] in came;
      var i :| 0 <= i < |ids| && ids[i] == came[0];
      assert now[i] in now;
    }
    forall a | a in now && a.payable !in Payables(approved) ensures a.payable in came {
      var i :| 0 <= i < |now| && now[i] == a;
      assert ids[i] in ids;
    }
  }

  /** In particular always, when weeks alone price weekly work and nobody edited a quantity. */
  lemma MovedFigureHasCause(book: Book, was: Day -> Cents, approved: seq<Line>, now: seq<Line>)
    requires approved != [] && LinesDistinct(approved) && LinesDistinct(now)
    requires AtWeekPrice(approved, was) && AtWeekPrice(now, PriceAt(book)) && WorkUnedited(approved, now)
    ensures var ids := Payables(approved);
            var c := Explain(DetailsOf(book, now, Chosen(now, ids), ids, Gross(approved)), approved, now);
            c.delta != 0 ==> c.removedIds != [] || c.repriced != []
  {
    hide WeekPriceOf, NewestFirstOf, Worth, WeekPrices, Gross, Chosen, AllRepriced, AtWeekPrice, WorkUnedited, ById,
         SomeWeekUnlike;
    var ids := Payables(approved);
    CauseShownExactly(book, approved, now);
    ReportedExactly(book, approved, Chosen(now, ids));
    if !SomeWeekUnlike(book, approved, Chosen(now, ids)) {
      forall a, b | a in approved && b in now && a.payable == b.payable ensures a.amount == b.amount {
        OnlyRepricedDrift(book, was, approved, now, a, b);
      }
      NoDrift(approved, now);
    }
  }

  /* ---- small lists, for the examples ---- */

  lemma OneNamed(l: Line, ids: seq<Id>)
    ensures Named([l], ids) == if l.payable in ids then [l] else []
  {
    assert [l][1..] == [];
  }

  lemma OneOnce(x: int)
    ensures Once([x]) == [x]
  {
    assert [x][..0] == [];
  }

  lemma OneMissing(x: Id)
    ensures Missing([x], [x]) == []
  {
    assert [x][1..] == [];
  }

  lemma OneRow(approved: seq<Line>, row: WeekRow)
    ensures AllRepriced(approved, [row])
            == if Repriced(approved, row).Some? then [Repriced(approved, row).value] else []
  {
    hide Repriced;
    assert [row][..0] == [];
  }

  lemma PairWeekly(a: Line, b: Line)
    requires a.source.Some? && b.week != a.week
    ensures WeeklyOf([a, b], a.week) == [a]
  {
    assert [a, b][1..] == [b] && [b][1..] == [];
    assert WeeklyOf([b], a.week) == [];
  }

  lemma PairSums(a: Line, b: Line, now: seq<Line>)
    requires ById(now, a.payable) == Some(a) && ById(now, b.payable).None?
    ensures Drift([a, b], now) == 0 && Gone([a, b], now) == b.amount
  {
    hide ById;
    assert [a, b][..1] == [a] && [a][..0] == [];
    assert Drift([a], now) == 0 && Gone([a], now) == 0;
  }

  lemma SoleRow(book: Book, l: Line)
    ensures WeekPrices(book, Once(WeeksOf([l]))) == [WeekRow(l.week, PriceAt(book)(l.week))]
  {
    hide WeekPriceOf, NewestFirstOf;
    assert WeeksOf([l]) == [l.week];
    OneOnce(l.week);
  }

  /** The conditions are not idle. A line priced by a person's own price, which did not move, is
      reported as its week repriced once anything else moved the figure. */
  lemma SpecialPriceMisreported(book: Book, kept: Line, gone: Line)
    requires kept.source.Some? && kept.rate != PriceAt(book)(kept.week)
    requires kept.payable != gone.payable && gone.week != kept.week && gone.amount != 0
    ensures var approved, now := [kept, gone], [kept];
            var ids := Payables(approved);
            var c := Explain(DetailsOf(book, now, Chosen(now, ids), ids, Gross(approved)), approved, now);
            c.delta == -gone.amount && Drift(approved, now) == 0
            && c.repriced == [RepricedWeek(kept.week, kept.rate, PriceAt(book)(kept.week), 1)]
  {
    hide WeekPriceOf, NewestFirstOf, Worth, Drift, Gone, Gross, AllRepriced, WeeklyOf, Named, Once, Missing, PriceAt,
         Resolved;
    var approved, now := [kept, gone], [kept];
    var ids := Payables(approved);
    DeltaIsDriftLessGone(book, approved, now);
    ByIdIs(now, kept);
    PairSums(kept, gone, now);
    OneNamed(kept, ids);
    assert ids[0] == kept.payable;
    SoleRow(book, kept);
    OneRow(approved, WeekRow(kept.week, PriceAt(book)(kept.week)));
    PairWeekly(kept, gone);
  }

  /** And a corrected quantity on a line with a frozen rate moves the figure with no cause to
      give: the screen can only say that the work changed. */
  lemma QuantityEditUnexplained(book: Book, before: Line, after: Line)
    requires before.payable == after.payable && before.source.None? && after.source.None?
    requires before.amount != after.amount
    ensures var approved, now := [before], [after];
            var ids := Payables(approved);
            var c := Explain(DetailsOf(book, now, Chosen(now, ids), ids, Gross(approved)), approved, now);
            c.delta == after.amount - before.amount && Causes(c) == [Unexplained(true)]
  {
    hide WeekPriceOf, NewestFirstOf, Worth, Drift, Gone, Gross, AllRepriced, Named, Once, PriceAt, Resolved, Missing;
    var approved, now := [before], [after];
    var ids := Payables(approved);
    DeltaIsDriftLessGone(book, approved, now);
    ByIdIs(now, after);
    OneSums(before, after, now);
    OneNamed(after, ids);
    assert ids == [before.payable] && Payables(now) == ids;
    OneOnce(before.payable);
    OneMissing(before.payable);
    SoleRow(book, after);
    OneRow(approved, WeekRow(after.week, PriceAt(book)(after.week)));
    assert approved[1..] == [];
    var c := Explain(DetailsOf(book, now, Chosen(now, ids), ids, Gross(approved)), approved, now);
    assert WeeklyOf(approved, after.week) == [];
    assert c.repriced == [];
    assert Moves(c.repriced) == [];
  }

  lemma OneSums(before: Line, after: Line, now: seq<Line>)
    requires ById(now, before.payable) == Some(after)
    ensures Drift([before], now) == after.amount - before.amount && Gone([before], now) == 0
  {
    hide ById;
    assert [before][..0] == [];
  }
}
