/** Settling work: which records are pending, what a settlement claims and freezes, and what
    voiding it releases. Values and single steps; FarmServer runs them on a mutable farm. */
module Settlement {
  import opened Text
  import opened PriceRules
  import opened Ledger
  import Amount
  import Calendar

  type Quantity = Amount.Exact

  datatype RateSource = Weekly | Explicit | Dated

  datatype Record = Record(
    id: Id,
    worker: Id,
    plots: seq<Id>,
    from: Day,
    to: Day,
    week: Day,
    quantity: Quantity,
    source: RateSource,
    rate: Option<Cents>,
    amount: Option<Cents>,
    estimate: Cents,
    deleted: bool)

  datatype Item = Item(payable: Id, week: Day, quantity: Quantity, rate: Cents, amount: Cents, voided: bool)

  datatype Settlement = Settlement(
    id: Id,
    worker: Id,
    periodStart: Day,
    periodEnd: Day,
    gross: Cents,
    voided: bool,
    items: seq<Item>)

  datatype Tenant = Tenant(
    workers: set<Id>,
    records: seq<Record>,
    book: Book,
    settlements: seq<Settlement>,
    ledger: seq<Movement>)

  /* ---- derived reads ---- */

  function Worth(q: Quantity, rate: Cents): (cents: Cents) {
    var rounded := Amount.ServerRound(Amount.Abs(q.units) * rate, Amount.Ten(q.scale));
    if q.units < 0 then -rounded else rounded
  }

  /** The server's amount is the shared one: the nearest integer to the exact product, ties
      away from zero, for every quantity and price the routes let in. */
  lemma WorthIsNearest(q: Quantity, rate: Cents)
    requires q.units >= 0 && rate >= 0
    ensures Worth(q, rate) == Amount.Worth(q, rate)
    ensures Amount.Nearest(q.units * rate, Amount.Ten(q.scale), Worth(q, rate))
  {
    var n, d := q.units * rate, Amount.Ten(q.scale);
    Amount.MulMono(rate, 0, q.units);
    Amount.ServerRounding(n, d);
    Amount.RoundIsNearest(n, d);
  }

  /** At a negative price it is not: a product below zero loses its fraction, whatever it is.
      The sign of a quantity is taken off first and put back. */
  lemma WorthExactly(q: Quantity, rate: Cents, k: Cents)
    ensures q.units >= 0 ==>
              var n, d := q.units * rate, Amount.Ten(q.scale);
              k == Worth(q, rate) <==> if n >= 0 then Amount.Nearest(n, d, k) else (k - 1) * d < n <= k * d
    ensures Worth(q.(units := -q.units), rate) == -Worth(q, rate)
  {
    var n, d := Amount.Abs(q.units) * rate, Amount.Ten(q.scale);
    Amount.ServerRounding(n, d);
    if n >= 0 {
      Amount.RoundIsNearest(n, d);
      if Amount.Nearest(n, d, k) { Amount.NearestIsRound(n, d, k); }
    } else {
      Amount.CutExactly(n, d, k);
    }
  }

  predicate Claims(s: Settlement, p: Id) { exists i :: i in s.items && i.payable == p && !i.voided }

  predicate IsSettled(ss: seq<Settlement>, p: Id) { exists s :: s in ss && Claims(s, p) }

  /** `liveClaim`: the first live line on a payable, by settlement and by line. */
  method LiveClaim(ss: seq<Settlement>, p: Id) returns (at: Option<(nat, nat)>)
    ensures at.Some? <==> IsSettled(ss, p)
    ensures match at
            case Some((k, i)) => k < |ss| && i < |ss[k].items| && ss[k].items[i].payable == p && !ss[k].items[i].voided
                                 && !IsSettled(ss[..k], p) && !Claims(ss[k].(items := ss[k].items[..i]), p)
            case None => true
  {
    for k := 0 to |ss|
      invariant !IsSettled(ss[..k], p)
    {
      for i := 0 to |ss[k].items|
        invariant !Claims(ss[k].(items := ss[k].items[..i]), p)
      {
        var item := ss[k].items[i];
        if item.payable == p && !item.voided {
          assert item in ss[k].items && ss[k] in ss;
          return Some((k, i));
        }
        assert ss[k].items[..i + 1] == ss[k].items[..i] + [item];
      }
      assert ss[k].(items := ss[k].items[..|ss[k].items|]) == ss[k];
      assert ss[..k + 1] == ss[..k] + [ss[k]];
    }
    assert ss[..|ss|] == ss;
    at := None;
  }

  function PriceNow(book: Book, r: Record): (p: KiloPrice) { KiloPriceOf(book, Query(r.worker, r.plots, r.week)) }

  datatype Line = Line(payable: Id, day: Day, week: Day, quantity: Quantity, rate: Cents,
                       amount: Cents, source: Option<Source>)

  function OrZero(c: Option<Cents>): (n: Cents) { if c.Some? then c.value else 0 }

  /** One payable, priced: a weekly record at the price now, anything else as it was frozen. */
  function LineOf(book: Book, r: Record): (l: Line)
    ensures l.payable == r.id && l.quantity == r.quantity && l.week == r.week && l.day == r.from
  {
    if r.source.Weekly? then
      var kilo := PriceNow(book, r);
      Line(r.id, r.from, r.week, r.quantity, kilo.cents, Worth(r.quantity, kilo.cents), Some(kilo.source))
    else Line(r.id, r.from, r.week, r.quantity, OrZero(r.rate), OrZero(r.amount), None)
  }

  /** `projectWorkRecord`: the estimate a list of labores shows. */
  function Projected(t: Tenant, r: Record): (cents: Cents) {
    if !IsSettled(t.settlements, r.id) && r.source.Weekly? && r.rate.None?
    then Worth(r.quantity, PriceNow(t.book, r).cents)
    else r.estimate
  }

  predicate IsOpen(ss: seq<Settlement>, r: Record, w: Id, from: Day, to: Day) {
    r.worker == w && !r.deleted && from <= r.from <= to && !IsSettled(ss, r.id)
  }

  function OpenRecords(ss: seq<Settlement>, rs: seq<Record>, w: Id, from: Day, to: Day): (open: seq<Record>)
    ensures forall r :: r in open <==> r in rs && IsOpen(ss, r, w, from, to)
  {
    if rs == [] then []
    else
      var rest, r := OpenRecords(ss, rs[1..], w, from, to), rs[0];
      assert rs == [r] + rs[1..];
      if IsOpen(ss, r, w, from, to) then [r] + rest else rest
  }

  /** Oldest first, then by id. */
  predicate Before(a: Record, b: Record) { a.from < b.from || (a.from == b.from && a.id < b.id) }

  function Insert(rs: seq<Record>, r: Record): (out: seq<Record>)
    ensures forall x :: x in out <==> x in rs || x == r
  {
    if rs == [] then [r]
    else
      var n := |rs| - 1;
      assert rs == rs[..n] + [rs[n]];
      if Before(r, rs[n]) then Insert(rs[..n], r) + [rs[n]] else rs + [r]
  }

  function SortByDay(rs: seq<Record>): (out: seq<Record>)
    ensures forall x :: x in out <==> x in rs
  {
    if rs == [] then []
    else
      assert rs == rs[..|rs| - 1] + [rs[|rs| - 1]];
      Insert(SortByDay(rs[..|rs| - 1]), rs[|rs| - 1])
  }

  function Priced(book: Book, rs: seq<Record>): (ls: seq<Line>)
    ensures |ls| == |rs| && forall i :: 0 <= i < |rs| ==> ls[i] == LineOf(book, rs[i])
  {
    seq(|rs|, i requires 0 <= i < |rs| => LineOf(book, rs[i]))
  }

  function OpenInOrder(ss: seq<Settlement>, rs: seq<Record>, w: Id, from: Day, to: Day): (open: seq<Record>) {
    SortByDay(OpenRecords(ss, rs, w, from, to))
  }

  function Pending(t: Tenant, w: Id, from: Day, to: Day): (ls: seq<Line>) {
    Priced(t.book, OpenInOrder(t.settlements, t.records, w, from, to))
  }

  /* ---- requests and answers ---- */

  datatype Request = Request(id: Id, worker: Id, from: Day, to: Day, wanted: seq<Id>, expected: Option<Cents>)

  /** What a refused settlement says: the details of a 409 GROSS_CHANGED. */
  datatype GrossDetails = GrossDetails(
    expected: Cents,
    actual: Cents,
    added: seq<Id>,
    removed: seq<Id>,
    provided: bool,
    weeks: seq<WeekRow>)

  datatype Reason =
    | BadRequest | NotFound | NothingToSettle | GrossChanged(details: GrossDetails) | AlreadyVoid
    | AlreadyReversed | ExceedsBalance(balance: Cents) | KeyReused | RecordSettled | NoRateInForce
    | RangeNeedsRate | Forbidden

  datatype Answer<+T> = Done(value: T) | Replayed(value: T) | Refused(why: Reason)

  /* ---- settling ---- */

  /** Named payables, or everything pending when none is named. */
  function Chosen(ls: seq<Line>, wanted: seq<Id>): (chosen: seq<Line>) {
    if wanted == [] then ls else Named(ls, wanted)
  }

  function Named(ls: seq<Line>, ids: seq<Id>): (kept: seq<Line>)
    ensures forall l :: l in kept <==> l in ls && l.payable in ids
  {
    if ls == [] then []
    else
      assert ls == [ls[0]] + ls[1..];
      if ls[0].payable in ids then [ls[0]] + Named(ls[1..], ids) else Named(ls[1..], ids)
  }

  function Gross(ls: seq<Line>): (cents: Cents) {
    if ls == [] then 0 else Gross(ls[..|ls| - 1]) + ls[|ls| - 1].amount
  }

  function GrossOf(items: seq<Item>): (cents: Cents) {
    if items == [] then 0 else GrossOf(items[..|items| - 1]) + items[|items| - 1].amount
  }

  /** The Monday of the earliest week taken in, or `to` when none is earlier. */
  function PeriodStart(ls: seq<Line>, to: Day): (start: Day)
    ensures start <= to && (forall l :: l in ls ==> start <= l.week)
    ensures start == to || exists l :: l in ls && l.week == start
  {
    if ls == [] then to
    else
      var rest := PeriodStart(ls[..|ls| - 1], to);
      assert ls == ls[..|ls| - 1] + [ls[|ls| - 1]];
      if ls[|ls| - 1].week < rest then ls[|ls| - 1].week else rest
  }

  function ItemOf(l: Line): (i: Item) { Item(l.payable, l.week, l.quantity, l.rate, l.amount, false) }

  function ItemsOf(ls: seq<Line>): (items: seq<Item>)
    ensures |items| == |ls| && forall k :: 0 <= k < |ls| ==> items[k] == ItemOf(ls[k])
  {
    seq(|ls|, k requires 0 <= k < |ls| => ItemOf(ls[k]))
  }

  function IndexOf(ss: seq<Settlement>, id: Id): (k: Option<nat>)
    ensures k.Some? ==> k.value < |ss| && ss[k.value].id == id
    ensures k.None? ==> forall s :: s in ss ==> s.id != id
  {
    if ss == [] then None
    else if ss[0].id == id then Some(0)
    else
      var k := IndexOf(ss[1..], id);
      assert ss == [ss[0]] + ss[1..];
      if k.Some? then Some(k.value + 1) else None
  }

  function Payables(ls: seq<Line>): (ids: seq<Id>)
    ensures |ids| == |ls| && forall k :: 0 <= k < |ls| ==> ids[k] == ls[k].payable
  {
    seq(|ls|, k requires 0 <= k < |ls| => ls[k].payable)
  }

  /** Every id once, in the order first named: a JavaScript set. */
  function Once(ids: seq<Id>): (out: seq<Id>)
    ensures forall id :: id in out <==> id in ids
  {
    if ids == [] then []
    else
      var n := |ids| - 1;
      assert ids == ids[..n] + [ids[n]];
      if ids[n] in ids[..n] then Once(ids[..n]) else Once(ids[..n]) + [ids[n]]
  }

  function Missing(ids: seq<Id>, from: seq<Id>): (out: seq<Id>)
    ensures forall id :: id in out <==> id in ids && id !in from
  {
    if ids == [] then []
    else
      assert ids == [ids[0]] + ids[1..];
      if ids[0] in from then Missing(ids[1..], from) else [ids[0]] + Missing(ids[1..], from)
  }

  function WeeksOf(ls: seq<Line>): (days: seq<Day>)
    ensures |days| == |ls| && forall k :: 0 <= k < |ls| ==> days[k] == ls[k].week
  {
    seq(|ls|, k requires 0 <= k < |ls| => ls[k].week)
  }

  function WeekPrices(book: Book, days: seq<Day>): (rows: seq<WeekRow>)
    ensures |rows| == |days|
    ensures forall k :: 0 <= k < |days| ==>
              rows[k] == WeekRow(days[k], WeekPriceOf(book, NewestFirstOf(book.base), days[k]))
  {
    seq(|days|, k requires 0 <= k < |days| => WeekRow(days[k], WeekPriceOf(book, NewestFirstOf(book.base), days[k])))
  }

  function DetailsOf(book: Book, all: seq<Line>, chosen: seq<Line>, wanted: seq<Id>,
                     expected: Cents): (d: GrossDetails) {
    GrossDetails(
      expected,
      Gross(chosen),
      if wanted == [] then [] else Missing(Payables(all), wanted),
      if wanted == [] then [] else Missing(Once(wanted), Payables(all)),
      wanted != [],
      WeekPrices(book, Once(WeeksOf(chosen))))
  }

  function NewSettlement(q: Request, chosen: seq<Line>): (s: Settlement) {
    Settlement(q.id, q.worker, PeriodStart(chosen, q.to), q.to, Gross(chosen), false, ItemsOf(chosen))
  }

  function EarningOf(s: Settlement, day: Day, minted: Id): (m: Movement) {
    Movement(minted, s.worker, Devengo, s.gross, day, Some(s.id), None)
  }

  function Refusal(t: Tenant, q: Request): (why: Option<Reason>) {
    var all := Pending(t, q.worker, q.from, q.to);
    var chosen := Chosen(all, q.wanted);
    if chosen == [] then Some(NothingToSettle)
    else if q.expected.None? then Some(BadRequest)
    else if q.expected.value != Gross(chosen)
         then Some(GrossChanged(DetailsOf(t.book, all, chosen, q.wanted, q.expected.value)))
    else if Gross(chosen) <= 0 then Some(NothingToSettle)
    else None
  }

  /** A settlement: the id is asked first, nothing is written on a refusal, and one earning
      is written for the whole gross. */
  function Settle(t: Tenant, q: Request, today: Day, minted: Id): (r: (Tenant, Answer<Settlement>)) {
    if q.to < q.from then (t, Refused(BadRequest))
    else
      var k := IndexOf(t.settlements, q.id);
      if k.Some? then (t, Replayed(t.settlements[k.value]))
      else
        var why := Refusal(t, q);
        if why.Some? then (t, Refused(why.value))
        else
          var s := NewSettlement(q, Chosen(Pending(t, q.worker, q.from, q.to), q.wanted));
          (t.(settlements := t.settlements + [s], ledger := t.ledger + [EarningOf(s, today, minted)]), Done(s))
  }

  /* ---- voiding ---- */

  function VoidItems(items: seq<Item>): (out: seq<Item>)
    ensures |out| == |items| && forall k :: 0 <= k < |items| ==> out[k] == items[k].(voided := true)
  {
    seq(|items|, k requires 0 <= k < |items| => items[k].(voided := true))
  }

  function Voided(s: Settlement): (v: Settlement) { s.(voided := true, items := VoidItems(s.items)) }

  /** The earnings of a settlement that nothing reverses yet. */
  function Unreversed(all: seq<Movement>, ms: seq<Movement>, id: Id): (es: seq<Movement>)
    ensures forall m :: m in es <==> m in ms && m.kind.Devengo? && m.settlement == Some(id) && !Reversed(all, m.id)
  {
    if ms == [] then []
    else
      var front, m := ms[..|ms| - 1], ms[|ms| - 1];
      assert ms == front + [m];
      if m.kind.Devengo? && m.settlement == Some(id) && !Reversed(all, m.id)
      then Unreversed(all, front, id) + [m] else Unreversed(all, front, id)
  }

  function ReversalOf(m: Movement, day: Day, minted: Id): (r: Movement) {
    Movement(minted, m.worker, Reverso, -m.amount, day, m.settlement, Some(m.id))
  }

  function ReversalsOf(es: seq<Movement>, day: Day, minted: seq<Id>): (rs: seq<Movement>)
    requires |minted| == |es|
    ensures |rs| == |es| && forall k :: 0 <= k < |es| ==> rs[k] == ReversalOf(es[k], day, minted[k])
  {
    seq(|es|, k requires 0 <= k < |es| => ReversalOf(es[k], day, minted[k]))
  }

  /** Cancels without editing: the lines keep their rows, the earning gets a reversal. */
  function Void(t: Tenant, id: Id, today: Day, minted: seq<Id>): (r: (Tenant, Answer<Settlement>))
    requires |minted| == |Unreversed(t.ledger, t.ledger, id)|
  {
    var k := IndexOf(t.settlements, id);
    if k.None? then (t, Refused(NotFound))
    else if t.settlements[k.value].voided then (t, Refused(AlreadyVoid))
    else
      var s := Voided(t.settlements[k.value]);
      (t.(settlements := t.settlements[k.value := s],
          ledger := t.ledger + ReversalsOf(Unreversed(t.ledger, t.ledger, id), today, minted)),
       Done(s))
  }

  /* ---- the ledger's own doors ---- */

  function Find(ms: seq<Movement>, id: Id): (m: Option<Movement>)
    ensures m.Some? ==> m.value in ms && m.value.id == id
    ensures m.None? <==> !Used(ms, id)
  {
    if ms == [] then None
    else
      assert ms == [ms[0]] + ms[1..];
      if ms[0].id == id then Some(ms[0]) else Find(ms[1..], id)
  }

  datatype Payment = Payment(id: Id, kind: Kind, worker: Id, cents: Cents, day: Day, viaMethod: bool, overpay: bool)

  /** Only an adjustment keeps the sign it came with. */
  function LedgerAmount(kind: Kind, cents: Cents): (amount: Cents) {
    if kind.Ajuste? then cents else -(Amount.Abs(cents) as int)
  }

  /** `ledgerHandler`, for the four kinds it serves: zero is refused, then a resent id is
      answered with the row it names, and only then is the balance looked at. */
  function Pay(t: Tenant, p: Payment): (r: (Tenant, Answer<Movement>))
    requires p.kind.Pago? || p.kind.Anticipo? || p.kind.Deduccion? || p.kind.Ajuste?
  {
    var existing, amount := Find(t.ledger, p.id), LedgerAmount(p.kind, p.cents);
    if p.cents == 0 then (t, Refused(BadRequest))
    else if existing.Some? then
      (t, if existing.value.kind == p.kind && existing.value.worker == p.worker then Replayed(existing.value)
          else Refused(KeyReused))
    else if p.kind.Deduccion? && p.viaMethod then (t, Refused(BadRequest))
    else if p.worker !in t.workers then (t, Refused(NotFound))
    else if p.kind.Pago? && !p.overpay && -amount > BalanceOf(t.ledger, p.worker).balance
    then (t, Refused(ExceedsBalance(BalanceOf(t.ledger, p.worker).balance)))
    else
      var m := Movement(p.id, p.worker, p.kind, amount, p.day, None, None);
      (t.(ledger := t.ledger + [m]), Done(m))
  }

  function Reverse(t: Tenant, id: Id, today: Day, minted: Id): (r: (Tenant, Answer<Movement>)) {
    var m := Find(t.ledger, id);
    if m.None? then (t, Refused(NotFound))
    else if m.value.kind.Reverso? || Reversed(t.ledger, id) then (t, Refused(AlreadyReversed))
    else
      var r := ReversalOf(m.value, today, minted);
      (t.(ledger := t.ledger + [r]), Done(r))
  }

  /* ---- work records ---- */

  datatype RateRow = RateRow(validFrom: Day, cents: Cents)

  /** An activity: a contract counts as one thing done, a weekly one leaves its price open. */
  datatype Activity = Activity(contract: bool, weekly: bool, rates: seq<RateRow>)

  /** `rateInForce`: the newest applying rate; the last one written when dates repeat. */
  function RateInForce(rates: seq<RateRow>, on: Day): (r: Option<RateRow>) {
    if rates == [] then None
    else
      var best, x := RateInForce(rates[..|rates| - 1], on), rates[|rates| - 1];
      if x.validFrom <= on && (best.None? || x.validFrom >= best.value.validFrom) then Some(x) else best
  }

  datatype Draft = Draft(
    id: Id,
    worker: Id,
    plots: seq<Id>,
    activity: Option<Activity>,
    from: Day,
    to: Day,
    quantity: Quantity,
    named: Option<Cents>,
    byWeigher: bool)

  /** The role that weighs is confined to activities whose price the week sets, and sends no
      price of its own. */
  predicate WeigherMayRecord(d: Draft, a: Activity) { d.byWeigher ==> a.weekly && d.named.None? }

  /** Which price a new record carries, and whether it froze. */
  function PriceOf(d: Draft, a: Activity): (p: Answer<(RateSource, Option<Cents>)>) {
    if d.named.Some? then
      if d.named.value <= 0 then Refused(BadRequest) else Done((Explicit, d.named))
    else if a.weekly then Done((Weekly, None))
    else
      var r := RateInForce(a.rates, d.from);
      if r.None? then Refused(NoRateInForce) else Done((Dated, Some(r.value.cents)))
  }

  function RecordAt(rs: seq<Record>, id: Id): (k: Option<nat>)
    ensures k.Some? ==> k.value < |rs| && rs[k.value].id == id
    ensures k.None? ==> forall r :: r in rs ==> r.id != id
  {
    if rs == [] then None
    else if rs[0].id == id then Some(0)
    else
      var k := RecordAt(rs[1..], id);
      assert rs == [rs[0]] + rs[1..];
      if k.Some? then Some(k.value + 1) else None
  }

  const ONE := Amount.Exact(1, 0)

  /** A new work record; a resent id answers with the record already there. */
  function Register(t: Tenant, d: Draft): (r: (Tenant, Answer<Record>)) {
    var k := RecordAt(t.records, d.id);
    if d.to < d.from then (t, Refused(BadRequest))
    else if k.Some? then (t, Replayed(t.records[k.value]))
    else if d.activity.None? then (t, Refused(NotFound))
    else if !WeigherMayRecord(d, d.activity.value) then (t, Refused(Forbidden))
    else
      var quantity := if d.activity.value.contract then ONE else d.quantity;
      var price := PriceOf(d, d.activity.value);
      if quantity.units <= 0 then (t, Refused(BadRequest))
      else if price.Refused? then (t, Refused(price.why))
      else
        var (source, rate) := price.value;
        var amount := if rate.Some? then Some(Worth(quantity, rate.value)) else None;
        if !source.Explicit? && d.from != d.to then (t, Refused(RangeNeedsRate))
        else if amount.Some? && amount.value <= 0 then (t, Refused(BadRequest))
        else
          var week := Calendar.MondayOf(d.from);
          var estimate := if amount.Some? then amount.value
                          else Worth(quantity, WeekPriceOf(t.book, NewestFirstOf(t.book.base), week));
          var rec := Record(d.id, d.worker, d.plots, d.from, d.to, week, quantity,
                            source, rate, amount, estimate, false);
          (t.(records := [rec] + t.records), Done(rec))
  }

  /** The correction of a record: its state, its quantity, or both. */
  datatype Patch = Patch(id: Id, active: Option<bool>, quantity: Option<Quantity>)

  function Patched(r: Record, p: Patch): (out: Option<Record>) {
    if p.active == Some(false) then Some(r.(deleted := true))
    else
      var kept := if p.active == Some(true) then r.(deleted := false) else r;
      if kept.deleted then None
      else if p.quantity.None? then Some(kept)
      else
        var amount := if r.rate.None? then None else Some(Worth(p.quantity.value, r.rate.value));
        Some(kept.(quantity := p.quantity.value, amount := amount))
  }

  function Correct(t: Tenant, p: Patch): (r: (Tenant, Answer<Record>)) {
    var k := RecordAt(t.records, p.id);
    if p.quantity.Some? && p.quantity.value.units <= 0 then (t, Refused(BadRequest))
    else if k.None? then (t, Refused(NotFound))
    else if IsSettled(t.settlements, p.id) then (t, Refused(RecordSettled))
    else
      var out := Patched(t.records[k.value], p);
      if out.None? then (t, Refused(NotFound))
      else (t.(records := t.records[k.value := out.value]), Done(out.value))
  }

  function Remove(t: Tenant, id: Id): (r: (Tenant, Answer<Record>)) {
    var k := RecordAt(t.records, id);
    if k.None? || t.records[k.value].deleted then (t, Refused(NotFound))
    else if IsSettled(t.settlements, id) then (t, Refused(RecordSettled))
    else
      var out := t.records[k.value].(deleted := true);
      (t.(records := t.records[k.value := out]), Done(out))
  }
}
