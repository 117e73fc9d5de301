/** The farm as it is kept: arrays that every request rewrites in place. Each method is held
    to the step it stands for, and leaves the farm sound. */
module FarmServer {
  import opened Text
  import opened PriceRules
  import opened Ledger
  import opened Settlement
  import opened SettlementRuns
  import opened Payroll
  import Calendar
  import PriceWrites

  class Farm {
    var workers: set<Id>
    var records: seq<Record>
    var book: Book
    var settlements: seq<Settlement>
    var ledger: seq<Movement>
    var confirmed: bool   // somebody has said what a kilo is worth

    function State(): (t: Tenant)
      reads this
    {
      Tenant(workers, records, book, settlements, ledger)
    }

    ghost predicate Valid()
      reads this
    {
      Sound(State())
    }

    constructor (workers: set<Id>, book: Book)
      ensures Valid() && State() == Tenant(workers, [], book, [], [])
      ensures confirmed == (book.farm.Some? && book.farm.value > 0)
    {
      this.workers, this.book := workers, book;
      confirmed := book.farm.Some? && book.farm.value > 0;
      records, settlements, ledger := [], [], [];
    }

    /** `POST /v1/work-records`. */
    method RegisterWork(d: Draft) returns (a: Answer<Record>)
      requires Valid()
      modifies this`records
      ensures Valid() && (State(), a) == Register(old(State()), d)
    {
      RegisterSound(State(), d);
      hide Sound, Worth, WeekPriceOf, NewestFirstOf;
      if d.to < d.from { return Refused(BadRequest); }
      var k := RecordAt(records, d.id);
      if k.Some? { return Replayed(records[k.value]); }
      if d.activity.None? { return Refused(NotFound); }
      if d.byWeigher && (!d.activity.value.weekly || d.named.Some?) { return Refused(Forbidden); }
      var quantity := if d.activity.value.contract then ONE else d.quantity;
      if quantity.units <= 0 { return Refused(BadRequest); }
      var price := PriceOf(d, d.activity.value);
      if price.Refused? { return Refused(price.why); }
      var (source, rate) := price.value;
      if !source.Explicit? && d.from != d.to { return Refused(RangeNeedsRate); }
      var amount := None;
      if rate.Some? {
        amount := Some(Worth(quantity, rate.value));
        if amount.value <= 0 { return Refused(BadRequest); }
      }
      var week := Calendar.MondayOf(d.from);
      var estimate := if amount.Some? then amount.value
                      else Worth(quantity, WeekPriceOf(book, NewestFirstOf(book.base), week));
      var created := Record(d.id, d.worker, d.plots, d.from, d.to, week, quantity,
                            source, rate, amount, estimate, false);
      records := [created] + records;
      a := Done(created);
    }

    /** `PATCH /v1/work-records/:id`. */
    method CorrectWork(p: Patch) returns (a: Answer<Record>)
      requires Valid()
      modifies this`records
      ensures Valid() && (State(), a) == Correct(old(State()), p)
    {
      CorrectSound(State(), p);
      hide Sound, Worth, IsSettled;
      if p.quantity.Some? && p.quantity.value.units <= 0 { return Refused(BadRequest); }
      var k := RecordAt(records, p.id);
      if k.None? { return Refused(NotFound); }
      if IsSettled(settlements, p.id) { return Refused(RecordSettled); }
      var rec := records[k.value];
      if p.active == Some(false) {
        rec := rec.(deleted := true);
      } else {
        if p.active == Some(true) { rec := rec.(deleted := false); }
        if rec.deleted { return Refused(NotFound); }
        if p.quantity.Some? {
          rec := rec.(quantity := p.quantity.value,
                      amount := if rec.rate.None? then None else Some(Worth(p.quantity.value, rec.rate.value)));
        }
      }
      records := records[k.value := rec];
      a := Done(rec);
    }

    /** `DELETE /v1/work-records/:id`. */
    method RemoveWork(id: Id) returns (a: Answer<Record>)
      requires Valid()
      modifies this`records
      ensures Valid() && (State(), a) == Remove(old(State()), id)
    {
      RemoveSound(State(), id);
      hide Sound, IsSettled;
      var k := RecordAt(records, id);
      if k.None? || records[k.value].deleted { return Refused(NotFound); }
      if IsSettled(settlements, id) { return Refused(RecordSettled); }
      var gone := records[k.value].(deleted := true);
      records := records[k.value := gone];
      a := Done(gone);
    }

    /** `PUT /v1/prices/weeks/:monday`. */
    method PutWeekPrice(monday: Day, cents: Cents) returns (a: Answer<Cents>)
      requires Valid()
      modifies this`book
      ensures Valid()
      ensures State() == old(State()).(book := PriceWrites.Apply(old(book), PriceWrites.PutWeek(monday, cents)))
      ensures a == if Calendar.IsMonday(monday) && cents > 0 then Done(cents) else Refused(BadRequest)
    {
      hide Sound;
      if !Calendar.IsMonday(monday) { return Refused(BadRequest); }
      if cents <= 0 { return Refused(BadRequest); }
      var row := WeekRow(monday, cents);
      PriceWrites.PutWeekAtIndex(book.weeks, row);
      StepSound(State(), Repricing(PriceWrites.Apply(book, PriceWrites.PutWeek(monday, cents))));
      var existing := PriceWrites.WeekIndex(book.weeks, monday);
      if existing.Some? {
        book := book.(weeks := book.weeks[existing.value := row]);
      } else {
        book := book.(weeks := book.weeks + [row]);
      }
      a := Done(cents);
    }

    /** `PUT /v1/prices/base/:monday`. */
    method PutBasePrice(monday: Day, cents: Cents, thisWeek: Day) returns (a: Answer<Cents>)
      requires Valid()
      modifies this`book, this`confirmed
      ensures Valid() && confirmed == (old(confirmed) || a.Done?)
      ensures State()
              == old(State()).(book := PriceWrites.Apply(old(book), PriceWrites.PutBase(monday, cents, thisWeek)))
      ensures a == if Calendar.IsMonday(monday) && cents > 0 then Done(cents) else Refused(BadRequest)
    {
      hide Sound;
      if !Calendar.IsMonday(monday) { return Refused(BadRequest); }
      if cents <= 0 { return Refused(BadRequest); }
      StepSound(State(), Repricing(PriceWrites.Apply(book, PriceWrites.PutBase(monday, cents, thisWeek))));
      var rows := PriceWrites.Seeded(book);
      PriceWrites.PutRowAtIndex(rows, Entry(monday, Some(cents)));
      var existing := PriceWrites.DateIndex(rows, monday);
      if existing.Some? {
        rows := rows[existing.value := Entry(monday, Some(cents))];
      } else {
        rows := rows + [Entry(monday, Some(cents))];
      }
      book := book.(base := rows);
      if book.farm.Some? {
        var row := FirstApplying(NewestFirstOf(book.base), thisWeek);
        if row.Some? && row.value.price.Some? { book := book.(farm := row.value.price); }
      }
      confirmed := true;
      a := Done(cents);
    }

    /** `PUT /v1/prices/special/:kind/:id/:monday`: a price, or none to end a special one. */
    method PutSpecialPrice(persona: bool, target: Option<Id>, monday: Day,
                           price: Option<Cents>) returns (a: Answer<Option<Cents>>)
      requires Valid()
      modifies this`book
      ensures Valid()
      ensures State() == old(State()).(book :=
                   if target.None? then old(book)
                   else PriceWrites.Apply(old(book), PriceWrites.PutSpecial(persona, target.value, monday, price)))
      ensures a == if !Calendar.IsMonday(monday) || (price.Some? && price.value <= 0) then Refused(BadRequest)
                   else if target.None? then Refused(NotFound) else Done(price)
    {
      hide Sound;
      if !Calendar.IsMonday(monday) { return Refused(BadRequest); }
      if price.Some? && price.value <= 0 { return Refused(BadRequest); }
      if target.None? { return Refused(NotFound); }
      StepSound(State(),
                Repricing(PriceWrites.Apply(book, PriceWrites.PutSpecial(persona, target.value, monday, price))));
      var rows := if persona then book.employees else book.plots;
      var row := Special(target.value, Entry(monday, price));
      PriceWrites.PutOfAtIndex(rows, target.value, row.entry);
      var existing := PriceWrites.SpecialIndex(rows, target.value, monday);
      if existing.Some? { rows := rows[existing.value := row]; } else { rows := rows + [row]; }
      if persona { book := book.(employees := rows); } else { book := book.(plots := rows); }
      a := Done(price);
    }

    /** `DELETE /v1/prices/special/:kind/:id/:monday`: a row that is not there is refused. */
    method DropSpecialPrice(persona: bool, target: Option<Id>, monday: Day) returns (a: Answer<nat>)
      requires Valid()
      modifies this`book
      ensures Valid()
      ensures State() == old(State()).(book :=
                   if target.None? then old(book)
                   else PriceWrites.Apply(old(book), PriceWrites.DropSpecial(persona, target.value, monday)))
      ensures a.Done? <==> Calendar.IsMonday(monday) && target.Some?
                           && exists r :: r in (if persona then old(book).employees else old(book).plots)
                                          && r.target == target.value && r.entry.validFrom == monday
      ensures !a.Done? ==> a == Refused(if Calendar.IsMonday(monday) then NotFound else BadRequest)
    {
      hide Sound;
      if !Calendar.IsMonday(monday) { return Refused(BadRequest); }
      if target.None? { return Refused(NotFound); }
      StepSound(State(), Repricing(PriceWrites.Apply(book, PriceWrites.DropSpecial(persona, target.value, monday))));
      var rows := if persona then book.employees else book.plots;
      PriceWrites.DropOfKeepsLength(rows, target.value, monday);
      var kept := PriceWrites.DropOf(rows, target.value, monday);
      if persona { book := book.(employees := kept); } else { book := book.(plots := kept); }
      if |kept| == |rows| { return Refused(NotFound); }
      a := Done(|rows| - |kept|);
    }

    static method SumOf(ls: seq<Line>) returns (gross: Cents)
      ensures gross == Gross(ls)
    {
      gross := 0;
      for i := 0 to |ls|
        invariant gross == Gross(ls[..i])
      {
        assert ls[..i + 1][..i] == ls[..i];
        gross := gross + ls[i].amount;
      }
      assert ls[..|ls|] == ls;
    }

    /** The period a settlement records starts with the earliest week it takes in. */
    static method EarliestWeek(ls: seq<Line>, to: Day) returns (start: Day)
      ensures start == PeriodStart(ls, to)
    {
      start := to;
      for i := 0 to |ls|
        invariant start == PeriodStart(ls[..i], to)
      {
        assert ls[..i + 1][..i] == ls[..i];
        if ls[i].week < start { start := ls[i].week; }
      }
      assert ls[..|ls|] == ls;
    }

    static method VoidLines(lines: seq<Item>) returns (items: seq<Item>)
      ensures items == VoidItems(lines)
    {
      items := lines;
      for i := 0 to |items|
        invariant |items| == |lines|
        invariant forall j :: 0 <= j < i ==> items[j] == lines[j].(voided := true)
        invariant forall j :: i <= j < |items| ==> items[j] == lines[j]
      {
        items := items[i := items[i].(voided := true)];
      }
    }

    static method VoidWhole(s: Settlement) returns (v: Settlement)
      ensures v == Voided(s)
    {
      var items := VoidLines(s.items);
      v := s.(voided := true, items := items);
    }

    /** The settlement a request asks for, or why it is refused: nothing chosen, no approved
        figure, a figure that moved, or one that adds up to nothing. */
    static method Drawn(t: Tenant, q: Request) returns (why: Option<Reason>, s: Settlement)
      ensures why == Refusal(t, q)
      ensures s == NewSettlement(q, Chosen(Pending(t, q.worker, q.from, q.to), q.wanted))
    {
      hide Pending, Chosen, Gross, DetailsOf, PeriodStart, ItemsOf;
      var all := Pending(t, q.worker, q.from, q.to);
      var chosen := Chosen(all, q.wanted);
      var gross := SumOf(chosen);
      var periodStart := EarliestWeek(chosen, q.to);
      s := Settlement(q.id, q.worker, periodStart, q.to, gross, false, ItemsOf(chosen));
      if chosen == [] { return Some(NothingToSettle), s; }
      if q.expected.None? { return Some(BadRequest), s; }
      if q.expected.value != gross {
        return Some(GrossChanged(DetailsOf(t.book, all, chosen, q.wanted, q.expected.value))), s;
      }
      if gross <= 0 { return Some(NothingToSettle), s; }
      why := None;
    }

    /** `POST /v1/settlements`. */
    method SettleWork(q: Request, today: Day, minted: Id) returns (a: Answer<Settlement>)
      requires Valid() && !Used(ledger, minted)
      modifies this`settlements, this`ledger
      ensures Valid() && (State(), a) == Settle(old(State()), q, today, minted)
    {
      ghost var t := State();
      SettleSound(t, q, today, minted);
      hide Sound, Pending, Used, Chosen, Refusal, NewSettlement, EarningOf, IndexOf;
      if q.to < q.from { return Refused(BadRequest); }
      var k := IndexOf(settlements, q.id);
      if k.Some? { return Replayed(settlements[k.value]); }
      var why, s := Drawn(State(), q);
      if why.Some? { return Refused(why.value); }
      settlements, ledger := settlements + [s], ledger + [EarningOf(s, today, minted)];
      assert State() == t.(settlements := t.settlements + [s], ledger := t.ledger + [EarningOf(s, today, minted)]);
      a := Done(s);
    }

    static method AppendReversals(ms: seq<Movement>, open: seq<Movement>, today: Day,
                                  reversals: seq<Id>) returns (out: seq<Movement>)
      requires |reversals| == |open|
      ensures out == ms + ReversalsOf(open, today, reversals)
    {
      out := ms;
      ghost var all := ReversalsOf(open, today, reversals);
      for i := 0 to |open|
        invariant out == ms + all[..i]
      {
        assert all[..i + 1] == all[..i] + [all[i]];
        out := out + [Movement(reversals[i], open[i].worker, Reverso, -open[i].amount, today,
                               open[i].settlement, Some(open[i].id))];
      }
      assert all[..|open|] == all;
    }

    /** `POST /v1/settlements/:id/void`: raise the flag of every line, then reverse every
        earning that nothing reverses yet. */
    method VoidSettlement(id: Id, today: Day, reversals: seq<Id>) returns (a: Answer<Settlement>)
      requires Valid() && |reversals| == |Unreversed(ledger, ledger, id)|
      requires forall m :: m in reversals ==> !Used(ledger, m)
      modifies this`settlements, this`ledger
      ensures Valid() && (State(), a) == Void(old(State()), id, today, reversals)
    {
      ghost var t := State();
      VoidSound(t, id, today, reversals);
      hide Sound, Used, Voided, Unreversed, ReversalsOf, IndexOf;
      var k := IndexOf(settlements, id);
      if k.None? { return Refused(NotFound); }
      var s := settlements[k.value];
      if s.voided { return Refused(AlreadyVoid); }
      s := VoidWhole(s);
      var all := AppendReversals(ledger, Unreversed(ledger, ledger, id), today, reversals);
      settlements, ledger := settlements[k.value := s], all;
      assert State() == t.(settlements := t.settlements[k.value := s], ledger := all);
      a := Done(s);
    }

    /** `POST /v1/payments`, `/advances`, `/deductions` and `/adjustments`. */
    method AddMovement(p: Payment) returns (a: Answer<Movement>)
      requires Valid() && Served(p.kind)
      modifies this`ledger
      ensures Valid() && (State(), a) == Pay(old(State()), p)
    {
      PaySound(State(), p);
      hide Sound, BalanceOf, Used, Find, LedgerAmount;
      if p.cents == 0 { return Refused(BadRequest); }
      var existing := Find(ledger, p.id);
      if existing.Some? {
        if existing.value.kind != p.kind || existing.value.worker != p.worker { return Refused(KeyReused); }
        return Replayed(existing.value);
      }
      if p.kind.Deduccion? && p.viaMethod { return Refused(BadRequest); }
      var amount := LedgerAmount(p.kind, p.cents);
      if p.worker !in workers { return Refused(NotFound); }
      if p.kind.Pago? && !p.overpay {
        var balance := BalanceOf(ledger, p.worker).balance;
        if -amount > balance { return Refused(ExceedsBalance(balance)); }
      }
      var created := Movement(p.id, p.worker, p.kind, amount, p.day, None, None);
      ledger := ledger + [created];
      a := Done(created);
    }

    /** `POST /v1/ledger/:id/reverse`. */
    method ReverseMovement(id: Id, today: Day, minted: Id) returns (a: Answer<Movement>)
      requires Valid() && !Used(ledger, minted)
      modifies this`ledger
      ensures Valid() && (State(), a) == Reverse(old(State()), id, today, minted)
    {
      ReverseSound(State(), id, today, minted);
      hide Sound, Used;
      var entry := Find(ledger, id);
      if entry.None? { return Refused(NotFound); }
      if entry.value.kind.Reverso? { return Refused(AlreadyReversed); }
      if Reversed(ledger, id) { return Refused(AlreadyReversed); }
      var created := ReversalOf(entry.value, today, minted);
      ledger := ledger + [created];
      a := Done(created);
    }
  }
}
