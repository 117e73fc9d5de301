/** What each route of the farm answers, by what is known before the request, and everything it
    writes: the answers of settling are in Payroll. */
module Answers {
  import opened Text
  import opened PriceRules
  import opened Ledger
  import opened Settlement
  import opened SettlementRuns
  import opened Payroll
  import Amount
  import Calendar

  /* ---- voiding ---- */

  ghost predicate Standing(t: Tenant, id: Id, voided: bool) {
    exists s :: s in t.settlements && s.id == id && s.voided == voided
  }

  lemma IndexIs(t: Tenant, s: Settlement)
    requires SettlementsKept(t.settlements) && s in t.settlements
    ensures IndexOf(t.settlements, s.id).Some? && t.settlements[IndexOf(t.settlements, s.id).value] == s
  {
    hide SettlementKept, OneClaim;
    var k := IndexOf(t.settlements, s.id);
    SettlementNamed(t.settlements, k.value, s);
  }

  /** A void is refused exactly when no settlement has the id, or the one that has it is void
      already; otherwise it is done, wherever the settlement stands. A refusal writes nothing. */
  lemma VoidsExactly(t: Tenant, id: Id, today: Day, minted: seq<Id>)
    requires Sound(t) && |minted| == |Unreversed(t.ledger, t.ledger, id)|
    ensures var (u, a) := Void(t, id, today, minted);
            && (a == Refused(NotFound) <==> !KnownSettlement(t, id))
            && (a == Refused(AlreadyVoid) <==> Standing(t, id, true))
            && (a.Done? <==> Standing(t, id, false))
            && (!a.Done? ==> u == t)
  {
    hide RecordsKept, SettlementsKept, ClaimsKept, WellFormed, EarningsKept, Unreversed;
    var k := IndexOf(t.settlements, id);
    if k.Some? { assert t.settlements[k.value] in t.settlements; }
    forall s | s in t.settlements && s.id == id ensures k.Some? && t.settlements[k.value] == s { IndexIs(t, s); }
  }

  lemma AtIndex(t: Tenant, k: nat)
    requires SettlementsKept(t.settlements) && k < |t.settlements|
    ensures IndexOf(t.settlements, t.settlements[k].id) == Some(k)
  {
    hide SettlementKept, OneClaim;
    var j := IndexOf(t.settlements, t.settlements[k].id);
    assert t.settlements[k] in t.settlements;
  }

  /** What a void writes: the flag of that settlement and of its lines, in their place, and one
      row for each of its earnings that nothing reversed, taking it back. */
  lemma VoidWritesExactly(t: Tenant, id: Id, today: Day, minted: seq<Id>, k: nat)
    requires Sound(t) && |minted| == |Unreversed(t.ledger, t.ledger, id)| && Void(t, id, today, minted).1.Done?
    requires k < |t.settlements|
    ensures var (u, a) := Void(t, id, today, minted);
            var s, open := t.settlements[k], Unreversed(t.ledger, t.ledger, id);
            && u == t.(settlements := u.settlements, ledger := u.ledger) && |u.settlements| == |t.settlements|
            && (s.id != id ==> u.settlements[k] == s)
            && (s.id == id ==> u.settlements[k] == a.value && a.value == s.(voided := true, items := a.value.items)
                               && |a.value.items| == |s.items|
                               && forall i :: 0 <= i < |s.items| ==> a.value.items[i] == s.items[i].(voided := true))
            && t.ledger <= u.ledger && |u.ledger| == |t.ledger| + |open|
            && forall i :: 0 <= i < |open| ==>
                 u.ledger[|t.ledger| + i]
                 == Movement(minted[i], open[i].worker, Reverso, -open[i].amount, today, Some(id), Some(open[i].id))
  {
    hide RecordsKept, SettlementsKept, ClaimsKept, WellFormed, EarningsKept, Unreversed;
    var open := Unreversed(t.ledger, t.ledger, id);
    if t.settlements[k].id == id { AtIndex(t, k); }
    forall i | 0 <= i < |open| ensures open[i].settlement == Some(id) { assert open[i] in open; }
  }

  /* ---- paying ---- */

  /** The row that already stands under the id a payment was sent with. */
  ghost predicate RowFor(t: Tenant, p: Payment, same: bool) {
    exists m :: m in t.ledger && m.id == p.id && (m.kind == p.kind && m.worker == p.worker <==> same)
  }

  /** A payment that has nothing against it but perhaps the balance. */
  ghost predicate Acceptable(t: Tenant, p: Payment) {
    p.cents != 0 && !Used(t.ledger, p.id) && !(p.kind.Deduccion? && p.viaMethod) && p.worker in t.workers
  }

  predicate Uncovered(t: Tenant, p: Payment) {
    p.kind.Pago? && !p.overpay && Amount.Abs(p.cents) > BalanceOf(t.ledger, p.worker).balance
  }

  /** Which answer a payment, advance, deduction or adjustment gets. */
  lemma PaysExactly(t: Tenant, p: Payment)
    requires WellFormed(t.ledger) && Served(p.kind)
    ensures var (u, a) := Pay(t, p);
            && (a.Replayed? <==> p.cents != 0 && RowFor(t, p, true))
            && (a.Replayed? ==> a.value in t.ledger && a.value.id == p.id)
            && (a == Refused(KeyReused) <==> p.cents != 0 && RowFor(t, p, false))
            && (a == Refused(BadRequest) <==>
                  p.cents == 0 || (!Used(t.ledger, p.id) && p.kind.Deduccion? && p.viaMethod))
            && (a == Refused(NotFound) <==>
                  p.cents != 0 && !Used(t.ledger, p.id) && !(p.kind.Deduccion? && p.viaMethod)
                  && p.worker !in t.workers)
            && (a == Refused(ExceedsBalance(BalanceOf(t.ledger, p.worker).balance))
                <==> Acceptable(t, p) && Uncovered(t, p))
            && (a.Done? <==> Acceptable(t, p) && !Uncovered(t, p))
            && (!a.Done? ==> u == t)
  {
    hide BalanceOf, WellFormed;
    forall m | m in t.ledger && m.id == p.id ensures Find(t.ledger, p.id) == Some(m) { FoundIs(t.ledger, m); }
    var found := Find(t.ledger, p.id);
    if found.Some? { assert found.value in t.ledger; }
  }

  /** And what it writes: one row, under its own id, on its own worker; with the sign it came
      with for an adjustment, and taken off for the rest. The balance moves by that. */
  lemma PayWritesExactly(t: Tenant, p: Payment)
    requires Served(p.kind) && Pay(t, p).1.Done?
    ensures var (u, a) := Pay(t, p);
            var moved: int := if p.kind.Ajuste? then p.cents else if p.cents < 0 then p.cents else -p.cents;
            && a.value == Movement(p.id, p.worker, p.kind, moved, p.day, None, None)
            && u == t.(ledger := t.ledger + [a.value])
            && BalanceOf(u.ledger, p.worker).balance == BalanceOf(t.ledger, p.worker).balance + moved
  {
    PayMovesBalance(t, p);
    hide BalanceOf, Find;
  }

  /* ---- reversing ---- */

  ghost predicate Row(t: Tenant, id: Id, spent: bool) {
    exists m :: m in t.ledger && m.id == id && (m.kind.Reverso? || Reversed(t.ledger, id) <==> spent)
  }

  /** A reversal is refused exactly when there is no such row, or the row is a reversal or has
      one; otherwise it appends the opposite, tied to the row and to its settlement. */
  lemma ReversesExactly(t: Tenant, id: Id, today: Day, minted: Id)
    requires WellFormed(t.ledger)
    ensures var (u, a) := Reverse(t, id, today, minted);
            && (a == Refused(NotFound) <==> !Used(t.ledger, id))
            && (a == Refused(AlreadyReversed) <==> Row(t, id, true))
            && (a.Done? <==> Row(t, id, false))
            && (!a.Done? ==> u == t)
            && (a.Done? ==> u == t.(ledger := t.ledger + [a.value]))
            && forall m :: a.Done? && m in t.ledger && m.id == id ==>
                 a.value == Movement(minted, m.worker, Reverso, -m.amount, today, m.settlement, Some(id))
  {
    hide WellFormed, Reversed;
    forall m | m in t.ledger && m.id == id ensures Find(t.ledger, id) == Some(m) { FoundIs(t.ledger, m); }
    var found := Find(t.ledger, id);
    if found.Some? { assert found.value in t.ledger; }
  }

  /* ---- settling ---- */

  /** The two rows a settlement writes. */
  lemma SettleWritesExactly(t: Tenant, q: Request, today: Day, minted: Id)
    requires Settle(t, q, today, minted).1.Done?
    ensures var (u, a) := Settle(t, q, today, minted);
            && a.value.id == q.id && !a.value.voided
            && u.ledger == t.ledger + [Movement(minted, q.worker, Devengo, a.value.gross, today, Some(q.id), None)]
            && u == t.(settlements := t.settlements + [a.value], ledger := u.ledger)
  {
    hide Pending, Refusal, Chosen;
  }

  /* ---- registering ---- */

  ghost predicate OnFile(t: Tenant, id: Id) { exists r :: r in t.records && r.id == id }

  /** The rate an activity has on a day: the latest not after it, and of those the last written. */
  ghost predicate RateOn(rates: seq<RateRow>, on: Day, cents: Cents) {
    exists k :: RateGoverns(rates, on, k) && rates[k].cents == cents
  }

  ghost predicate RateGoverns(rates: seq<RateRow>, on: Day, k: int) {
    && 0 <= k < |rates| && rates[k].validFrom <= on
    && forall j :: 0 <= j < |rates| && rates[j].validFrom <= on ==>
         rates[j].validFrom < rates[k].validFrom || (rates[j].validFrom == rates[k].validFrom && j <= k)
  }

  lemma {:induction false} RateGoverned(rates: seq<RateRow>, on: Day) returns (k: int)
    ensures match RateInForce(rates, on)
            case None => forall j :: 0 <= j < |rates| ==> rates[j].validFrom > on
            case Some(r) => RateGoverns(rates, on, k) && rates[k] == r
  {
    if rates == [] { return 0; }
    var n := |rates| - 1;
    k := RateGoverned(rates[..n], on);
    if RateInForce(rates, on) != RateInForce(rates[..n], on)
       || (rates[n].validFrom <= on && RateInForce(rates, on) == Some(rates[n]))
    {
      k := n;
    }
  }

  lemma RateExactly(rates: seq<RateRow>, on: Day, cents: Cents)
    ensures RateInForce(rates, on).Some? && RateInForce(rates, on).value.cents == cents <==> RateOn(rates, on, cents)
    ensures RateInForce(rates, on).None? <==> forall x :: x in rates ==> x.validFrom > on
  {
    hide RateInForce;
    var k := RateGoverned(rates, on);
    forall j | RateGoverns(rates, on, j) && RateInForce(rates, on).Some? ensures j == k { }
    if RateInForce(rates, on).Some? { assert rates[k] in rates; }
  }

  function QuantityOf(d: Draft): (q: Quantity)
    requires d.activity.Some?
  {
    if d.activity.value.contract then ONE else d.quantity
  }

  /** Nothing is wrong with who asks for what: the range runs forward, the id is new, there is
      such an activity, and a weigher asks for weekly work and names no rate. */
  ghost predicate MayRegister(t: Tenant, d: Draft) {
    && d.from <= d.to && !OnFile(t, d.id) && d.activity.Some?
    && (d.byWeigher ==> d.activity.value.weekly && d.named.None?)
  }

  /** The rate a record would freeze: the one named, or the activity's on the day. */
  ghost predicate Freezes(d: Draft, cents: Cents)
    requires d.activity.Some?
  {
    || d.named == Some(cents)
    || (d.named.None? && !d.activity.value.weekly && RateOn(d.activity.value.rates, d.from, cents))
  }

  /** Which answer a new record gets. */
  lemma RegistersExactly(t: Tenant, d: Draft)
    ensures var (u, a) := Register(t, d);
            var fits := MayRegister(t, d);
            var some := fits && QuantityOf(d).units > 0;
            && (a.Replayed? <==> d.from <= d.to && OnFile(t, d.id))
            && (a.Replayed? ==> a.value in t.records && a.value.id == d.id)
            && (a == Refused(NotFound) <==> d.from <= d.to && !OnFile(t, d.id) && d.activity.None?)
            && (a == Refused(Forbidden) <==> d.from <= d.to && !OnFile(t, d.id) && d.activity.Some? && !fits)
            && (a == Refused(NoRateInForce) <==>
                  some && d.named.None? && !d.activity.value.weekly && forall c :: !Freezes(d, c))
            && (a == Refused(RangeNeedsRate) <==>
                  some && d.named.None? && d.from != d.to && (d.activity.value.weekly || exists c :: Freezes(d, c)))
            && (a == Refused(BadRequest) <==>
                  || d.to < d.from || (fits && QuantityOf(d).units <= 0)
                  || (some && d.named.Some? && (d.named.value <= 0 || Worth(QuantityOf(d), d.named.value) <= 0))
                  || (some && d.named.None? && d.from == d.to
                      && exists c :: Freezes(d, c) && Worth(QuantityOf(d), c) <= 0))
            && (a.Done? <==>
                  || (some && d.named.Some? && d.named.value > 0 && Worth(QuantityOf(d), d.named.value) > 0)
                  || (some && d.named.None? && d.from == d.to
                      && (d.activity.value.weekly || exists c :: Freezes(d, c) && Worth(QuantityOf(d), c) > 0)))
            && (!a.Done? ==> u == t)
  {
    hide Worth, WeekPriceOf, NewestFirstOf, RateInForce, RateOn, Calendar.MondayOf;
    var k := RecordAt(t.records, d.id);
    if k.Some? { assert t.records[k.value] in t.records; }
    if d.activity.Some? {
      var rates := d.activity.value.rates;
      forall c { RateExactly(rates, d.from, c); }
      var r := RateInForce(rates, d.from);
      if r.Some? { assert RateOn(rates, d.from, r.value.cents); }
      assert forall c :: RateOn(rates, d.from, c) <==> r.Some? && r.value.cents == c;
      if d.named.Some? { assert Freezes(d, d.named.value); }
      if d.named.None? && !d.activity.value.weekly && r.Some? { assert Freezes(d, r.value.cents); }
    }
  }

  /** And what it writes: the record, at the head of the list. */
  lemma RegisterWritesExactly(t: Tenant, d: Draft)
    requires Register(t, d).1.Done?
    ensures var (u, a) := Register(t, d);
            var r := a.value;
            && u == t.(records := [r] + t.records) && d.activity.Some?
            && r.id == d.id && r.worker == d.worker && r.plots == d.plots && r.from == d.from && r.to == d.to
            && r.week == Calendar.MondayOf(d.from) && r.quantity == QuantityOf(d) && !r.deleted
            && (r.source.Explicit? <==> d.named.Some?)
            && (r.source.Weekly? <==> d.named.None? && d.activity.value.weekly)
            && (r.rate.None? <==> r.source.Weekly?) && (r.rate.Some? ==> Freezes(d, r.rate.value))
            && r.amount == (if r.rate.Some? then Some(Worth(r.quantity, r.rate.value)) else None)
            && r.estimate == (if r.rate.Some? then Worth(r.quantity, r.rate.value)
                              else Worth(r.quantity, WeekPriceOf(t.book, NewestFirstOf(t.book.base), r.week)))
  {
    hide Worth, WeekPriceOf, NewestFirstOf, RateInForce, RateOn, Calendar.MondayOf;
    var rates := d.activity.value.rates;
    var r := RateInForce(rates, d.from);
    if r.Some? { RateExactly(rates, d.from, r.value.cents); }
  }

  /* ---- correcting and removing ---- */

  ghost predicate OnFileAs(t: Tenant, id: Id, deleted: bool) {
    exists r :: r in t.records && r.id == id && r.deleted == deleted
  }

  lemma RecordIs(t: Tenant, r: Record)
    requires RecordsKept(t.records) && r in t.records
    ensures RecordAt(t.records, r.id).Some? && t.records[RecordAt(t.records, r.id).value] == r
  {
    hide PricedRight;
    var k := RecordAt(t.records, r.id);
    RecordsNamed(t.records, t.records[k.value], r);
  }

  lemma TwoStates(active: Option<bool>)
    ensures active.None? || active == Some(true) || active == Some(false)
  {
    if active.Some? {
      var b := active.value;
      assert active == Some(b);
    }
  }

  /** A correction is refused for a quantity of nothing, for a record that is not there or is
      deleted and stays so, and for one a live settlement claims; in that order, the claim before
      the deletion. */
  lemma CorrectsExactly(t: Tenant, p: Patch)
    requires Sound(t)
    ensures var (u, a) := Correct(t, p);
            var sane := p.quantity.Some? ==> p.quantity.value.units > 0;
            var stays := p.active.None? && OnFileAs(t, p.id, true);
            && (a == Refused(BadRequest) <==> !sane)
            && (a == Refused(RecordSettled) <==> sane && OnFile(t, p.id) && IsSettled(t.settlements, p.id))
            && (a == Refused(NotFound) <==>
                  sane && (!OnFile(t, p.id) || (!IsSettled(t.settlements, p.id) && stays)))
            && (a.Done? <==> sane && OnFile(t, p.id) && !IsSettled(t.settlements, p.id) && !stays)
            && (!a.Done? ==> u == t)
  {
    hide SettlementsKept, ClaimsKept, WellFormed, EarningsKept, RecordsKept, IsSettled, Worth;
    var k := RecordAt(t.records, p.id);
    if k.Some? { assert t.records[k.value] in t.records; }
    forall r | r in t.records && r.id == p.id ensures k.Some? && t.records[k.value] == r { RecordIs(t, r); }
    assert OnFile(t, p.id) <==> k.Some?;
    assert OnFileAs(t, p.id, true) <==> k.Some? && t.records[k.value].deleted;
    TwoStates(p.active);
  }

  /** A removal is refused for a record that is not there or is deleted, and for one a live
      settlement claims; otherwise the record is marked, in its place, and nothing else moves. */
  lemma RemovesExactly(t: Tenant, id: Id, i: nat)
    requires Sound(t) && i < |t.records|
    ensures var (u, a) := Remove(t, id);
            && (a == Refused(NotFound) <==> !OnFileAs(t, id, false))
            && (a == Refused(RecordSettled) <==> OnFileAs(t, id, false) && IsSettled(t.settlements, id))
            && (a.Done? <==> OnFileAs(t, id, false) && !IsSettled(t.settlements, id))
            && (!a.Done? ==> u == t)
            && (a.Done? ==> u == t.(records := u.records) && |u.records| == |t.records|
                            && u.records[i] == if t.records[i].id == id then t.records[i].(deleted := true)
                                               else t.records[i])
  {
    hide SettlementsKept, ClaimsKept, WellFormed, EarningsKept, RecordsKept, IsSettled;
    var k := RecordAt(t.records, id);
    if k.Some? { assert t.records[k.value] in t.records; }
    forall r | r in t.records && r.id == id ensures k.Some? && t.records[k.value] == r { RecordIs(t, r); }
    if t.records[i].id == id { SameIndex(t, i, id); }
  }

  lemma SameIndex(t: Tenant, i: nat, id: Id)
    requires Sound(t) && i < |t.records| && t.records[i].id == id
    ensures RecordAt(t.records, id) == Some(i)
  {
    hide SettlementsKept, ClaimsKept, WellFormed, EarningsKept, PricedRight;
  }

  /* ---- one line ---- */

  /** What a pending line says of a record: weekly work at the price now, with where that price
      came from; any other work as it was frozen. */
  lemma LineExactly(book: Book, r: Record)
    ensures var l := LineOf(book, r);
            && l.payable == r.id && l.day == r.from && l.week == r.week && l.quantity == r.quantity
            && (r.source.Weekly? ==>
                  var k := KiloPriceOf(book, Query(r.worker, r.plots, r.week));
                  l.rate == k.cents && l.source == Some(k.source) && l.amount == Worth(r.quantity, k.cents))
            && (!r.source.Weekly? ==>
                  && l.source.None? && (r.rate.Some? ==> l.rate == r.rate.value)
                  && (r.amount.Some? ==> l.amount == r.amount.value))
  {
    hide Worth, KiloPriceOf;
  }

  /* ---- the steps of a run ---- */

  /** A run may take any request whatever; only the ids a server mints must be new ones. */
  lemma StepsAllowed(t: Tenant, d: Draft, p: Patch, id: Id, book: Book, q: Request, pay: Payment, today: Day,
                     minted: Id)
    ensures Proper(t, Registering(d)) && Apply(t, Registering(d)) == Register(t, d).0
    ensures Proper(t, Correcting(p)) && Apply(t, Correcting(p)) == Correct(t, p).0
    ensures Proper(t, Removing(id)) && Apply(t, Removing(id)) == Remove(t, id).0
    ensures Proper(t, Repricing(book)) && Apply(t, Repricing(book)) == t.(book := book)
    ensures Served(pay.kind) ==> Proper(t, Paying(pay)) && Apply(t, Paying(pay)) == Pay(t, pay).0
    ensures !Used(t.ledger, minted) ==>
              && Proper(t, Settling(q, today, minted)) && Proper(t, Reversing(id, today, minted))
              && Apply(t, Settling(q, today, minted)) == Settle(t, q, today, minted).0
              && Apply(t, Reversing(id, today, minted)) == Reverse(t, id, today, minted).0
  {
    hide Register, Correct, Remove, Settle, Pay, Reverse;
  }
}
