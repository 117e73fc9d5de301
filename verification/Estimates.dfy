/** The figure a list of labores shows for a record, from its registration on: what fixes it,
    and when it is still the figure the record is pending at or was settled for. */
module Estimates {
  import opened Text
  import opened PriceRules
  import opened Ledger
  import opened Settlement
  import opened SettlementRuns
  import opened Payroll
  import Amount
  import Calendar

  /* ---- what a record keeps ---- */

  /** Corrections and removals reach the quantity, the amount that follows from it and the
      deleted mark; all else is as it was registered. */
  predicate SameOrigin(a: Record, b: Record) {
    b == a.(quantity := b.quantity, amount := b.amount, deleted := b.deleted)
  }

  ghost predicate StillThere(r: Record, rs: seq<Record>) { exists s :: s in rs && SameOrigin(r, s) }

  lemma StepKeepsOrigin(t: Tenant, s: Step, r: Record)
    requires Proper(t, s) && StillThere(r, t.records)
    ensures StillThere(r, Apply(t, s).records)
  {
    hide Register, Correct, Remove, Settle, Void, Pay, Reverse, Unreversed;
    var x :| x in t.records && SameOrigin(r, x);
    var i :| 0 <= i < |t.records| && t.records[i] == x;
    match s {
      case Registering(d) => RegisterKeepsRow(t, d, i);
      case Correcting(p) => CorrectKeepsRow(t, p, i);
      case Removing(id) => RemoveKeepsRow(t, id, i);
      case _ => OtherRecords(t, s);
    }
  }

  lemma CorrectKeepsRow(t: Tenant, p: Patch, i: nat)
    requires i < |t.records|
    ensures StillThere(t.records[i], Correct(t, p).0.records)
  {
    hide Worth, IsSettled;
    var us := Correct(t, p).0.records;
    assert us[i] in us && SameOrigin(t.records[i], us[i]);
  }

  lemma RemoveKeepsRow(t: Tenant, id: Id, i: nat)
    requires i < |t.records|
    ensures StillThere(t.records[i], Remove(t, id).0.records)
  {
    hide IsSettled;
    var us := Remove(t, id).0.records;
    assert us[i] in us && SameOrigin(t.records[i], us[i]);
  }

  lemma RegisterKeepsRow(t: Tenant, d: Draft, i: nat)
    requires i < |t.records|
    ensures t.records[i] in Register(t, d).0.records
  {
    hide Worth, WeekPriceOf, PriceOf;
    var u := Register(t, d).0;
    assert u.records == t.records || u.records[1..] == t.records;
    assert t.records[i] in t.records;
  }

  lemma OtherRecords(t: Tenant, s: Step)
    requires Proper(t, s) && !s.Registering? && !s.Correcting? && !s.Removing?
    ensures Apply(t, s).records == t.records
  {
    hide Pending, Refusal, NewSettlement, IsSettled, Unreversed, BalanceOf, Used, Find;
  }

  /** In every run a registered record keeps its estimate, its source and frozen rate, its
      week, its worker and its lotes. */
  lemma {:induction false} RunKeepsOrigin(t: Tenant, steps: seq<Step>, r: Record)
    requires ProperRun(t, steps) && StillThere(r, t.records)
    ensures StillThere(r, Run(t, steps).records)
    decreases |steps|
  {
    hide Apply, Proper, StillThere;
    if steps != [] {
      StepKeepsOrigin(t, steps[0], r);
      RunKeepsOrigin(Apply(t, steps[0]), steps[1..], r);
    }
  }

  /** The price a record was registered at: its own, or the week's then. */
  function RateThen(t: Tenant, r: Record): (rate: Cents) {
    if r.rate.Some? then r.rate.value else WeekPriceOf(t.book, NewestFirstOf(t.book.base), r.week)
  }

  /** The price it has now: its own, or what the rule gives for its person, lotes and week. */
  function RateNow(book: Book, r: Record): (rate: Cents) {
    if r.rate.Some? then r.rate.value else PriceNow(book, r).cents
  }

  lemma Registered(t: Tenant, d: Draft)
    requires Sound(t) && Register(t, d).1.Done?
    ensures var (u, a) := Register(t, d);
            && Sound(u) && a.value in u.records && a.value.id == d.id
            && a.value.estimate == Worth(a.value.quantity, RateThen(t, a.value))
  {
    hide Worth, WeekPriceOf, NewestFirstOf, RateInForce, Sound;
    RegisterSound(t, d);
    assert Register(t, d).0.records[0] == Register(t, d).1.value;
  }

  /** Whatever happened since, the record on file under the registered id is that record. */
  lemma Traced(t: Tenant, d: Draft, steps: seq<Step>, s: Record)
    requires Sound(t) && Register(t, d).1.Done? && ProperRun(Register(t, d).0, steps)
    requires s in Run(Register(t, d).0, steps).records && s.id == d.id
    ensures Sound(Run(Register(t, d).0, steps)) && PricedRight(s)
    ensures SameOrigin(Register(t, d).1.value, s)
    ensures s.estimate == Worth(Register(t, d).1.value.quantity, RateThen(t, s))
  {
    hide Register, ProperRun, Run, Worth, WeekPriceOf, NewestFirstOf, Sound, PricedRight;
    var (v, a) := Register(t, d);
    Registered(t, d);
    RunSound(v, steps);
    RunKeepsOrigin(v, steps, a.value);
    var u := Run(v, steps);
    var x :| x in u.records && SameOrigin(a.value, x);
    assert x == s && PricedRight(s) by { SoundRecords(u, x, s); }
  }

  lemma SoundRecords(t: Tenant, a: Record, b: Record)
    requires Sound(t) && a in t.records && b in t.records && a.id == b.id
    ensures a == b && PricedRight(b)
  {
    hide SettlementsKept, ClaimsKept, WellFormed, EarningsKept, PricedRight;
    RecordsNamed(t.records, a, b);
  }

  /* ---- while it is pending ---- */

  lemma PendingAmount(t: Tenant, s: Record, from: Day, to: Day, l: Line)
    requires Sound(t) && s in t.records && l in Pending(t, s.worker, from, to) && l.payable == s.id
    ensures PricedRight(s) && !IsSettled(t.settlements, s.id)
    ensures l == LineOf(t.book, s) && l.amount == Worth(s.quantity, RateNow(t.book, s))
  {
    hide Sound, Pending, Worth, PriceNow, IsSettled;
    var x := PendingLine(t, s.worker, from, to, l);
    SoundRecords(t, x, s);
  }

  /** The list of labores and the list of pending work show one figure for a record exactly
      when it is a weekly one, or the quantity it was registered with and the one it has now
      come to the same at its frozen rate. */
  lemma ReadersAgree(t: Tenant, d: Draft, steps: seq<Step>, s: Record, from: Day, to: Day, l: Line)
    requires Sound(t) && Register(t, d).1.Done? && ProperRun(Register(t, d).0, steps)
    requires var u := Run(Register(t, d).0, steps);
             s in u.records && s.id == d.id && l in Pending(u, s.worker, from, to) && l.payable == d.id
    ensures var r := Register(t, d).1.value;
            Projected(Run(Register(t, d).0, steps), s) == l.amount
            <==> s.rate.None? || Worth(r.quantity, s.rate.value) == Worth(s.quantity, s.rate.value)
  {
    hide Register, ProperRun, Run, Pending, Worth, PriceNow, WeekPriceOf, NewestFirstOf, Sound, IsSettled;
    Traced(t, d, steps, s);
    PendingAmount(Run(Register(t, d).0, steps), s, from, to, l);
  }

  /** A corrected quantity moves the pending line of a record with a frozen rate and leaves the
      estimate where the registration put it, whatever else happened in between. */
  lemma CorrectedEstimateLags(t: Tenant, d: Draft, steps: seq<Step>, p: Patch)
    requires Sound(t) && Register(t, d).1.Done? && ProperRun(Register(t, d).0, steps)
    requires Register(t, d).1.value.rate.Some? && p.id == d.id && p.active.None? && p.quantity.Some?
    requires Correct(Run(Register(t, d).0, steps), p).1.Done?
    ensures var r := Register(t, d).1.value;
            var (v, a) := Correct(Run(Register(t, d).0, steps), p);
            && Projected(v, a.value) == Worth(r.quantity, r.rate.value)
            && LineOf(v.book, a.value).amount == Worth(p.quantity.value, r.rate.value)
  {
    hide Register, ProperRun, Run, Worth, WeekPriceOf, NewestFirstOf, Sound, IsSettled, PriceNow;
    var u := Run(Register(t, d).0, steps);
    var k := RecordAt(u.records, p.id).value;
    assert u.records[k] in u.records;
    Traced(t, d, steps, u.records[k]);
  }

  /* ---- once it is settled ---- */

  /** A settled record shows what it was estimated at when it was registered. That is the
      amount it was settled for exactly when the quantity and price then come to the same as
      the quantity and price at the settlement. */
  lemma SettledEstimate(t: Tenant, d: Draft, steps: seq<Step>, s: Record, q: Request, today: Day, minted: Id, k: nat)
    requires Sound(t) && Register(t, d).1.Done? && ProperRun(Register(t, d).0, steps)
    requires var u := Run(Register(t, d).0, steps);
             var a := Settle(u, q, today, minted).1;
             && s in u.records && s.id == d.id
             && a.Done? && k < |a.value.items| && a.value.items[k].payable == d.id
    ensures var r := Register(t, d).1.value;
            var u := Run(Register(t, d).0, steps);
            var (v, a) := Settle(u, q, today, minted);
            && s in v.records
            && (Projected(v, s) == a.value.items[k].amount
                <==> Worth(r.quantity, RateThen(t, s)) == Worth(s.quantity, RateNow(u.book, s)))
  {
    hide Register, ProperRun, Run, Worth, WeekPriceOf, NewestFirstOf, Sound, IsSettled, PriceNow, Pending, PricedRight;
    hide RateThen, RateNow;
    var u := Run(Register(t, d).0, steps);
    Traced(t, d, steps, s);
    TakenAt(u, q, today, minted, k, s);
  }

  lemma TakenAt(u: Tenant, q: Request, today: Day, minted: Id, k: nat, s: Record)
    requires Sound(u) && s in u.records && Settle(u, q, today, minted).1.Done?
    requires var a := Settle(u, q, today, minted).1; k < |a.value.items| && a.value.items[k].payable == s.id
    ensures var (v, a) := Settle(u, q, today, minted);
            && v.records == u.records && Projected(v, s) == s.estimate
            && a.value.items[k].amount == Worth(s.quantity, RateNow(u.book, s))
  {
    hide Worth, RateNow, Sound, IsSettled, PriceNow, Pending, LineOf, Refusal, Chosen;
    var (v, a) := Settle(u, q, today, minted);
    var chosen := Chosen(Pending(u, q.worker, q.from, q.to), q.wanted);
    SettleTakesExactly(u, q, today, minted, q.worker, q.from, q.to);
    var l := chosen[k];
    assert l in chosen;
    var x := PendingLine(u, q.worker, q.from, q.to, l);
    LineNamed(u.book, x);
    SoundRecords(u, x, s);
    PendingAmount(u, s, q.from, q.to, l);
    assert v.settlements[|u.settlements|] == a.value;
    assert a.value in v.settlements && a.value.items[k] in a.value.items;
    ItemSettled(v.settlements, a.value, a.value.items[k]);
  }

  lemma LineNamed(book: Book, r: Record)
    ensures LineOf(book, r).payable == r.id
  {
  }

  /* ---- where the two part ---- */

  /** Books with nothing in them but the farm's own price. */
  function Flat(cents: Cents): (b: Book) { Book([], [], [], [], Some(cents)) }

  lemma FlatPrices(cents: Cents, r: Record)
    requires r.rate.None? && r.plots == []
    ensures WeekPriceOf(Flat(cents), NewestFirstOf(Flat(cents).base), r.week) == cents
    ensures cents > 0 ==> RateNow(Flat(cents), r) == cents
  {
  }

  lemma OnlyRecord(t: Tenant, r: Record, w: Id, from: Day, to: Day)
    requires t.records == [r] && IsOpen(t.settlements, r, w, from, to)
    ensures Pending(t, w, from, to) == [LineOf(t.book, r)]
  {
    hide LineOf, IsOpen;
    assert [r][1..] == [] && [r][..0] == [];
    assert OpenRecords(t.settlements, [], w, from, to) == [];
    assert OpenRecords(t.settlements, [r], w, from, to) == [r];
    assert SortByDay([]) == [] && Insert([], r) == [r];
  }

  function Weighed(w: Id, id: Id, day: Day): (d: Draft) {
    Draft(id, w, [], Some(Activity(false, true, [])), day, day, ONE, None, false)
  }

  function WeighedRecord(w: Id, id: Id, day: Day): (r: Record) {
    Record(id, w, [], day, day, Calendar.MondayOf(day), ONE, Weekly, None, None, 1, false)
  }

  lemma WeighedIsRegistered(w: Id, id: Id, day: Day)
    ensures var t := Tenant({w}, [], Flat(1), [], []);
            Register(t, Weighed(w, id, day))
            == (t.(records := [WeighedRecord(w, id, day)]), Done(WeighedRecord(w, id, day)))
  {
    hide Calendar.MondayOf, WeekPriceOf, KiloPriceOf, NewestFirstOf;
    FlatPrices(1, WeighedRecord(w, id, day));
    assert Worth(ONE, 1) == 1;
    assert [WeighedRecord(w, id, day)] + [] == [WeighedRecord(w, id, day)];
  }

  lemma WeighedSettles(t: Tenant, w: Id, id: Id, day: Day)
    requires t.records == [WeighedRecord(w, id, day)] && t.book == Flat(2) && t.settlements == []
    ensures Pending(t, w, day, day) == [Line(id, day, Calendar.MondayOf(day), ONE, 2, 2, Some(Finca))]
    ensures var (v, a) := Settle(t, Request(id, w, day, day, [], Some(2)), day, id);
            a.Done? && |a.value.items| == 1 && a.value.items[0].payable == id
  {
    hide Calendar.MondayOf, WeekPriceOf, NewestFirstOf;
    var r := WeighedRecord(w, id, day);
    FlatPrices(2, r);
    assert Worth(ONE, 2) == 2;
    OnlyRecord(t, r, w, day, day);
    var l := LineOf(t.book, r);
    hide Pending, LineOf, KiloPriceOf, Worth;
    assert Gross([l][..0]) == 0 && Gross([l]) == 2;
  }

  /** One kilo weighed at a price of one and settled at a price of two: the list still shows
      one. */
  lemma RepricedBeforeSettling(w: Id, id: Id, day: Day)
    ensures var t := Tenant({w}, [], Flat(1), [], []);
            var u := Apply(Register(t, Weighed(w, id, day)).0, Repricing(Flat(2)));
            && Register(t, Weighed(w, id, day)).1 == Done(WeighedRecord(w, id, day))
            && var (v, a) := Settle(u, Request(id, w, day, day, [], Some(2)), day, id);
               && a.Done? && |a.value.items| == 1 && a.value.items[0].payable == id
               && a.value.items[0].amount == 2 && Projected(v, WeighedRecord(w, id, day)) == 1
  {
    hide Calendar.MondayOf, WeekPriceOf, KiloPriceOf, NewestFirstOf, Register, Settle, Pending, Sound, Worth, RateNow;
    var t := Tenant({w}, [], Flat(1), [], []);
    WeighedIsRegistered(w, id, day);
    var u := Register(t, Weighed(w, id, day)).0.(book := Flat(2));
    assert Sound(u) by {
      EmptyFarmIsSound({w}, Flat(1));
      RegisterSound(t, Weighed(w, id, day));
      StepSound(Register(t, Weighed(w, id, day)).0, Repricing(Flat(2)));
    }
    WeighedSettles(u, w, id, day);
    TakenAt(u, Request(id, w, day, day, [], Some(2)), day, id, 0, WeighedRecord(w, id, day));
    FlatPrices(2, WeighedRecord(w, id, day));
    assert Worth(ONE, 2) == 2 by { WorthTwo(); }
  }

  lemma WorthTwo()
    ensures Worth(ONE, 2) == 2
  {
  }
}
