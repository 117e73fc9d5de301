/** Safety of whole runs of the settlement machine, and what one settlement, one void and
    their pair do to the lists and the money. */
module Payroll {
  import opened Text
  import opened PriceRules
  import opened Ledger
  import opened Settlement
  import opened SettlementRuns
  import Amount
  import Calendar

  /* ---- runs ---- */

  datatype Step =
    | Registering(draft: Draft)
    | Correcting(patch: Patch)
    | Removing(id: Id)
    | Repricing(book: Book)
    | Settling(request: Request, today: Day, minted: Id)
    | Voiding(id: Id, today: Day, reversals: seq<Id>)
    | Paying(payment: Payment)
    | Reversing(id: Id, today: Day, minted: Id)

  /** Ids the server mints are new ones; everything a client sends is arbitrary. */
  ghost predicate Proper(t: Tenant, s: Step) {
    match s
    case Settling(_, _, minted) => !Used(t.ledger, minted)
    case Reversing(_, _, minted) => !Used(t.ledger, minted)
    case Voiding(id, _, ids) =>
      |ids| == |Unreversed(t.ledger, t.ledger, id)|
      && forall m :: m in ids ==> !Used(t.ledger, m)
    case Paying(p) => Served(p.kind)
    case _ => true
  }

  ghost function Apply(t: Tenant, s: Step): (u: Tenant)
    requires Proper(t, s)
  {
    match s
    case Registering(d) => Register(t, d).0
    case Correcting(p) => Correct(t, p).0
    case Removing(id) => Remove(t, id).0
    case Repricing(book) => t.(book := book)
    case Settling(q, today, minted) => Settle(t, q, today, minted).0
    case Voiding(id, today, ids) => Void(t, id, today, ids).0
    case Paying(p) => Pay(t, p).0
    case Reversing(id, today, minted) => Reverse(t, id, today, minted).0
  }

  ghost predicate ProperRun(t: Tenant, steps: seq<Step>)
    decreases |steps|
  {
    steps != [] ==> Proper(t, steps[0]) && ProperRun(Apply(t, steps[0]), steps[1..])
  }

  ghost function Run(t: Tenant, steps: seq<Step>): (u: Tenant)
    requires ProperRun(t, steps)
    decreases |steps|
  {
    if steps == [] then t else Run(Apply(t, steps[0]), steps[1..])
  }

  lemma StepSound(t: Tenant, s: Step)
    requires Sound(t) && Proper(t, s)
    ensures Sound(Apply(t, s))
  {
    hide RecordsKept, SettlementsKept, ClaimsKept, WellFormed, EarningsKept;
    hide Register, Correct, Remove, Settle, Void, Pay, Reverse;
    match s
    case Registering(d) => RegisterSound(t, d);
    case Correcting(p) => CorrectSound(t, p);
    case Removing(id) => RemoveSound(t, id);
    case Repricing(_) =>
    case Settling(q, today, minted) => SettleSound(t, q, today, minted);
    case Voiding(id, today, ids) => VoidSound(t, id, today, ids);
    case Paying(p) => PaySound(t, p);
    case Reversing(id, today, minted) => ReverseSound(t, id, today, minted);
  }

  /** Through every run: one live claim per payable at most, claims only on work that is
      still there, one earning per settlement, each row reversed at most once. */
  lemma {:induction false} RunSound(t: Tenant, steps: seq<Step>)
    requires Sound(t) && ProperRun(t, steps)
    ensures Sound(Run(t, steps))
    decreases |steps|
  {
    hide Sound, Apply, Proper;
    if steps != [] {
      StepSound(t, steps[0]);
      RunSound(Apply(t, steps[0]), steps[1..]);
    }
  }

  /* ---- what never moves ---- */

  predicate ItemFrozen(a: Item, b: Item) { b == a.(voided := b.voided) && (a.voided ==> b.voided) }

  ghost predicate SettlementFrozen(a: Settlement, b: Settlement) {
    && b == a.(voided := b.voided, items := b.items) && (a.voided ==> b.voided)
    && |a.items| == |b.items| && forall k :: 0 <= k < |a.items| ==> ItemFrozen(a.items[k], b.items[k])
  }

  /** Settlements keep their place, gross, period and lines, except that a void only ever
      goes up; the ledger only grows at its end. */
  ghost predicate Frozen(t: Tenant, u: Tenant) {
    && t.ledger <= u.ledger
    && |t.settlements| <= |u.settlements|
    && forall k :: 0 <= k < |t.settlements| ==> SettlementFrozen(t.settlements[k], u.settlements[k])
  }

  lemma FrozenTransitive(t: Tenant, u: Tenant, v: Tenant)
    requires Frozen(t, u) && Frozen(u, v)
    ensures Frozen(t, v)
  {
    forall k | 0 <= k < |t.settlements| ensures SettlementFrozen(t.settlements[k], v.settlements[k]) {
      var a, b, c := t.settlements[k], u.settlements[k], v.settlements[k];
      forall i | 0 <= i < |a.items| ensures ItemFrozen(a.items[i], c.items[i]) {
        assert ItemFrozen(a.items[i], b.items[i]) && ItemFrozen(b.items[i], c.items[i]);
      }
    }
  }

  lemma StepFrozen(t: Tenant, s: Step)
    requires Proper(t, s)
    ensures Frozen(t, Apply(t, s))
  {
    hide Pending, Chosen, Refusal, NewSettlement, BalanceOf, Register, Correct, Remove, IsSettled, Used, Reversed, Find;
    match s
    case Registering(d) => RecordsOnly(t, s);
    case Correcting(p) => RecordsOnly(t, s);
    case Removing(id) => RecordsOnly(t, s);
    case _ =>
  }

  lemma RecordsOnly(t: Tenant, s: Step)
    requires Proper(t, s) && (s.Registering? || s.Correcting? || s.Removing?)
    ensures Apply(t, s) == t.(records := Apply(t, s).records)
  {
    hide Worth, WeekPriceOf, PriceOf, IsSettled;
  }

  /** No repricing, correction, payment or further settlement moves a line once frozen. */
  lemma {:induction false} RunFrozen(t: Tenant, steps: seq<Step>)
    requires ProperRun(t, steps)
    ensures Frozen(t, Run(t, steps))
    decreases |steps|
  {
    hide Frozen, Apply, Proper;
    if steps == [] {
      StillFrozen(t);
    } else {
      StepFrozen(t, steps[0]);
      RunFrozen(Apply(t, steps[0]), steps[1..]);
      FrozenTransitive(t, Apply(t, steps[0]), Run(t, steps));
    }
  }

  lemma StillFrozen(t: Tenant)
    ensures Frozen(t, t)
  {
  }

  /* ---- pending, as an ordered list ---- */

  predicate LineBefore(a: Line, b: Line) { a.day < b.day || (a.day == b.day && a.payable < b.payable) }

  ghost predicate LinesInOrder(ls: seq<Line>) { forall i, j :: 0 <= i < j < |ls| ==> LineBefore(ls[i], ls[j]) }

  lemma PendingInOrder(t: Tenant, w: Id, from: Day, to: Day)
    requires RecordsKept(t.records)
    ensures LinesInOrder(Pending(t, w, from, to))
  {
    var open := OpenInOrder(t.settlements, t.records, w, from, to);
    OpenIsInOrder(t.settlements, t.records, w, from, to);
    forall i, j | 0 <= i < j < |open| ensures LineBefore(Priced(t.book, open)[i], Priced(t.book, open)[j]) {
      assert Before(open[i], open[j]);
    }
  }

  lemma OpenIsPending(t: Tenant, w: Id, from: Day, to: Day, r: Record)
    requires r in t.records && IsOpen(t.settlements, r, w, from, to)
    ensures LineOf(t.book, r) in Pending(t, w, from, to)
  {
    hide IsOpen, LineOf;
    var open := OpenInOrder(t.settlements, t.records, w, from, to);
    assert r in open;
    var k :| 0 <= k < |open| && open[k] == r;
    assert Priced(t.book, open)[k] == LineOf(t.book, r);
  }

  lemma HasLine(ls: seq<Line>)
    requires ls != []
    ensures exists l :: l in ls
  {
    assert ls[0] in ls;
  }

  lemma LastIsLatest(ls: seq<Line>, l: Line)
    requires LinesInOrder(ls) && l in ls
    ensures var last := ls[|ls| - 1]; l == last || LineBefore(l, last)
  {
    var i :| 0 <= i < |ls| && ls[i] == l;
  }

  /** Two ordered lists of the same lines are the same list. */
  lemma {:induction false} SameLines(a: seq<Line>, b: seq<Line>)
    requires LinesInOrder(a) && LinesInOrder(b) && forall l :: l in a <==> l in b
    ensures a == b
  {
    if a == [] {
      if b != [] { HasLine(b); }
    } else {
      HasLine(a);
      var n := |a| - 1;
      var m := |b| - 1;
      assert a[n] in a && b[m] in b;
      LastIsLatest(a, b[m]);
      LastIsLatest(b, a[n]);
      forall l ensures l in a[..n] <==> l in b[..m] {
        assert l in a <==> l in a[..n] || l == a[n];
        assert l in b <==> l in b[..m] || l == b[m];
      }
      SameLines(a[..n], b[..m]);
    }
  }

  function Without(ls: seq<Line>, ids: seq<Id>): (kept: seq<Line>)
    ensures forall l :: l in kept <==> l in ls && l.payable !in ids
  {
    if ls == [] then []
    else
      assert ls == [ls[0]] + ls[1..];
      if ls[0].payable in ids then Without(ls[1..], ids) else [ls[0]] + Without(ls[1..], ids)
  }

  lemma {:induction false} WithoutInOrder(ls: seq<Line>, ids: seq<Id>)
    requires LinesInOrder(ls)
    ensures LinesInOrder(Without(ls, ids))
  {
    if ls != [] {
      WithoutInOrder(ls[1..], ids);
      var rest := Without(ls[1..], ids);
      forall j | 0 <= j < |rest| ensures LineBefore(ls[0], rest[j]) {
        assert rest[j] in rest;
        var k :| 0 <= k < |ls[1..]| && ls[1..][k] == rest[j];
        assert LineBefore(ls[0], ls[k + 1]);
      }
    }
  }

  /** A worker's work in a range is split in two: what is pending, and what exactly one live
      line of one settlement of that same worker claims. */
  lemma Partition(t: Tenant, r: Record, from: Day, to: Day)
    requires Sound(t) && r in t.records && !r.deleted && from <= r.from <= to
    ensures (exists l :: l in Pending(t, r.worker, from, to) && l.payable == r.id) <==> !IsSettled(t.settlements, r.id)
    ensures IsSettled(t.settlements, r.id) ==>
                exists k, i :: ClaimAt(t.settlements, k, i, r) && OnlyClaim(t.settlements, k, i, r)
  {
    hide SettlementsKept, WellFormed, EarningsKept, ClaimsKept, Pending, LineOf;
    if IsSettled(t.settlements, r.id) {
      forall l | l in Pending(t, r.worker, from, to) ensures l.payable != r.id {
        var x := PendingLine(t, r.worker, from, to, l);
      }
      ClaimIsOnly(t, r);
    } else {
      OpenIsPending(t, r.worker, from, to, r);
    }
  }

  predicate ClaimAt(ss: seq<Settlement>, k: int, i: int, r: Record) {
    && 0 <= k < |ss| && 0 <= i < |ss[k].items|
    && ss[k].items[i].payable == r.id && !ss[k].items[i].voided && ss[k].worker == r.worker
  }

  ghost predicate OnlyClaim(ss: seq<Settlement>, k: int, i: int, r: Record) {
    forall a, b :: 0 <= a < |ss| && 0 <= b < |ss[a].items| && ss[a].items[b].payable == r.id && !ss[a].items[b].voided
      ==> a == k && b == i
  }

  lemma ClaimIsOnly(t: Tenant, r: Record)
    requires Sound(t) && r in t.records && IsSettled(t.settlements, r.id)
    ensures exists k, i :: ClaimAt(t.settlements, k, i, r) && OnlyClaim(t.settlements, k, i, r)
  {
    hide WellFormed, EarningsKept, RecordsKept, SettlementsKept;
    var ss := t.settlements;
    var s :| s in ss && Claims(s, r.id);
    var k :| 0 <= k < |ss| && ss[k] == s;
    var item :| item in s.items && item.payable == r.id && !item.voided;
    var i :| 0 <= i < |s.items| && s.items[i] == item;
    assert Backed(t.records, s, item);
    var x :| x in t.records && Holds(x, s, item);
    RecordsNamed(t.records, x, r);
    assert ClaimAt(ss, k, i, r);
    ClaimedOnce(ss, k, i, r);
  }

  lemma ClaimedOnce(ss: seq<Settlement>, k: int, i: int, r: Record)
    requires SettlementsKept(ss) && ClaimAt(ss, k, i, r)
    ensures OnlyClaim(ss, k, i, r)
  {
    assert ss[k] in ss && SettlementKept(ss[k]);
    assert ss[k].items[i] in ss[k].items && Claims(ss[k], r.id);
    hide SettlementKept;
    forall a, b | 0 <= a < |ss| && 0 <= b < |ss[a].items| && ss[a].items[b].payable == r.id && !ss[a].items[b].voided
      ensures a == k && b == i
    {
      assert ss[a].items[b] in ss[a].items && Claims(ss[a], r.id);
    }
  }

  /* ---- one settlement ---- */

  lemma PendingIs(t: Tenant, w: Id, from: Day, to: Day, l: Line)
    ensures l in Pending(t, w, from, to)
       <==> exists r :: r in t.records && IsOpen(t.settlements, r, w, from, to) && l == LineOf(t.book, r)
  {
    hide IsOpen, LineOf, Pending;
    if l in Pending(t, w, from, to) { var r := PendingLine(t, w, from, to, l); }
    forall r | r in t.records && IsOpen(t.settlements, r, w, from, to)
      ensures LineOf(t.book, r) in Pending(t, w, from, to)
    {
      OpenIsPending(t, w, from, to, r);
    }
  }

  lemma ClaimedBySet(s: Settlement, ls: seq<Line>, p: Id)
    requires s.items == ItemsOf(ls)
    ensures Claims(s, p) <==> p in Payables(ls)
  {
    if Claims(s, p) {
      var i :| i in s.items && i.payable == p;
      var k :| 0 <= k < |s.items| && s.items[k] == i;
      assert Payables(ls)[k] == p;
    }
    if p in Payables(ls) {
      var k :| 0 <= k < |ls| && Payables(ls)[k] == p;
      assert s.items[k] in s.items;
    }
  }

  lemma SettledAfter(ss: seq<Settlement>, s: Settlement, p: Id)
    ensures IsSettled(ss + [s], p) <==> IsSettled(ss, p) || Claims(s, p)
  {
    hide Claims;
    assert forall x :: x in ss + [s] <==> x in ss || x == s;
  }

  /** Settling writes the approved gross, freezes each line at the price it was pending at,
      and takes exactly those lines out of every list of pending work. */
  lemma SettleTakesExactly(t: Tenant, q: Request, today: Day, minted: Id, w: Id, from: Day, to: Day)
    requires Sound(t) && Settle(t, q, today, minted).1.Done?
    ensures var (u, a) := Settle(t, q, today, minted);
            var chosen := Chosen(Pending(t, q.worker, q.from, q.to), q.wanted);
            && (forall l :: l in chosen
                    <==> l in Pending(t, q.worker, q.from, q.to) && (q.wanted == [] || l.payable in q.wanted))
            && LinesInOrder(chosen) && Some(a.value.gross) == q.expected && |a.value.items| == |chosen|
            && (forall k :: 0 <= k < |chosen| ==>
                  a.value.items[k]
                  == Item(chosen[k].payable, chosen[k].week, chosen[k].quantity, chosen[k].rate, chosen[k].amount,
                          false))
            && a.value.worker == q.worker && a.value.periodEnd == q.to
            && (forall l :: l in chosen ==> a.value.periodStart <= l.week)
            && (a.value.periodStart == q.to || exists l :: l in chosen && l.week == a.value.periodStart)
            && Pending(u, w, from, to) == Without(Pending(t, w, from, to), Payables(chosen))
  {
    hide RecordsKept, SettlementsKept, WellFormed, EarningsKept, ClaimsKept, SettlementKept;
    hide Pending, IsOpen, LineOf, IsSettled, Refusal, NewSettlement;
    var (u, a) := Settle(t, q, today, minted);
    var chosen := Chosen(Pending(t, q.worker, q.from, q.to), q.wanted);
    NewSettlementKept(t, q);
    NewItems(q, chosen);
    ChosenInOrder(t, q);
    PendingInOrder(t, w, from, to);
    PendingInOrder(u, w, from, to);
    WithoutInOrder(Pending(t, w, from, to), Payables(chosen));
    forall l ensures l in Pending(u, w, from, to) <==> l in Without(Pending(t, w, from, to), Payables(chosen)) {
      SettleTakesLine(t, u, a.value, chosen, w, from, to, l);
    }
    SameLines(Pending(u, w, from, to), Without(Pending(t, w, from, to), Payables(chosen)));
  }

  ghost predicate KnownSettlement(t: Tenant, id: Id) { exists s :: s in t.settlements && s.id == id }

  predicate Asked(q: Request, l: Line) { q.wanted == [] || l.payable in q.wanted }

  /** Something of what the caller asked for is pending. */
  ghost predicate SomethingAsked(t: Tenant, q: Request) {
    exists l :: l in Pending(t, q.worker, q.from, q.to) && Asked(q, l)
  }

  /** Which answer a settlement gets, by what can be known before it: a range that runs
      backwards is refused first, an id on record is replayed, and then it is settled exactly
      when there is something to settle and the approved figure is its positive gross. Only a
      settled one writes. */
  lemma SettlesExactly(t: Tenant, q: Request, today: Day, minted: Id)
    requires Sound(t)
    ensures var (u, a) := Settle(t, q, today, minted);
            var all := Pending(t, q.worker, q.from, q.to);
            var gross := Gross(Chosen(all, q.wanted));
            var first := q.from <= q.to && !KnownSettlement(t, q.id);
            var asked := SomethingAsked(t, q);
            && (a.Done? <==> first && asked && q.expected == Some(gross) && gross > 0)
            && (a.Replayed? <==> q.from <= q.to && KnownSettlement(t, q.id))
            && (a.Replayed? ==> a.value in t.settlements && a.value.id == q.id)
            && (a == Refused(BadRequest) <==> q.to < q.from || (first && asked && q.expected.None?))
            && (a == Refused(NothingToSettle) <==> first && (!asked || (q.expected == Some(gross) && gross <= 0)))
            && (a.Refused? && a.why.GrossChanged? <==> first && asked && q.expected.Some? && q.expected.value != gross)
            && (!a.Done? ==> u == t)
  {
    hide RecordsKept, SettlementsKept, WellFormed, EarningsKept, ClaimsKept, Pending, Gross, NewSettlement, DetailsOf;
    ChosenInOrder(t, q);
    var chosen := Chosen(Pending(t, q.worker, q.from, q.to), q.wanted);
    if chosen != [] { assert chosen[0] in chosen && Asked(q, chosen[0]); }
    assert forall l :: l in Pending(t, q.worker, q.from, q.to) && Asked(q, l) ==> l in chosen;
    var k := IndexOf(t.settlements, q.id);
    if k.Some? { assert t.settlements[k.value] in t.settlements; }
  }

  /** What a refusal for a changed figure reports: both figures, the pending work nobody named,
      and the named work that is no longer pending. */
  lemma GrossChangedReports(t: Tenant, q: Request, today: Day, minted: Id, p: Id)
    requires Settle(t, q, today, minted).1.Refused? && Settle(t, q, today, minted).1.why.GrossChanged?
    ensures var d := Settle(t, q, today, minted).1.why.details;
            var all := Pending(t, q.worker, q.from, q.to);
            var pending := exists l :: l in all && l.payable == p;
            && q.expected == Some(d.expected) && d.actual == Gross(Chosen(all, q.wanted)) && d.expected != d.actual
            && (d.provided <==> q.wanted != [])
            && (p in d.added <==> q.wanted != [] && pending && p !in q.wanted)
            && (p in d.removed <==> p in q.wanted && !pending)
  {
    hide Pending, Gross;
    var all := Pending(t, q.worker, q.from, q.to);
    if p in Payables(all) { var k :| 0 <= k < |all| && Payables(all)[k] == p; assert all[k] in all; }
    forall l | l in all && l.payable == p ensures p in Payables(all) {
      var k :| 0 <= k < |all| && all[k] == l;
      assert Payables(all)[k] == p;
    }
  }

  lemma {:induction false} NamedInOrder(ls: seq<Line>, ids: seq<Id>)
    requires LinesInOrder(ls)
    ensures LinesInOrder(Named(ls, ids))
  {
    if ls != [] {
      NamedInOrder(ls[1..], ids);
      var rest := Named(ls[1..], ids);
      forall j | 0 <= j < |rest| ensures LineBefore(ls[0], rest[j]) {
        assert rest[j] in rest;
        var k :| 0 <= k < |ls[1..]| && ls[1..][k] == rest[j];
        assert LineBefore(ls[0], ls[k + 1]);
      }
    }
  }

  lemma ChosenInOrder(t: Tenant, q: Request)
    requires RecordsKept(t.records)
    ensures var all := Pending(t, q.worker, q.from, q.to);
            var chosen := Chosen(all, q.wanted);
            LinesInOrder(chosen) && forall l :: l in chosen <==> l in all && (q.wanted == [] || l.payable in q.wanted)
  {
    PendingInOrder(t, q.worker, q.from, q.to);
    if q.wanted != [] { NamedInOrder(Pending(t, q.worker, q.from, q.to), q.wanted); }
  }

  lemma NewItems(q: Request, chosen: seq<Line>)
    ensures var s := NewSettlement(q, chosen);
            && s.items == ItemsOf(chosen) && s.worker == q.worker && s.periodEnd == q.to
            && (forall l :: l in chosen ==> s.periodStart <= l.week)
            && (s.periodStart == q.to || exists l :: l in chosen && l.week == s.periodStart)
  {
  }

  lemma SettleTakesLine(t: Tenant, u: Tenant, s: Settlement, chosen: seq<Line>, w: Id, from: Day, to: Day, l: Line)
    requires u.records == t.records && u.book == t.book && u.settlements == t.settlements + [s]
    requires s.items == ItemsOf(chosen)
    ensures l in Pending(u, w, from, to) <==> l in Pending(t, w, from, to) && l.payable !in Payables(chosen)
  {
    hide Pending, IsSettled;
    PendingIs(t, w, from, to, l);
    PendingIs(u, w, from, to, l);
    SettledAfter(t.settlements, s, l.payable);
    ClaimedBySet(s, chosen, l.payable);
    forall r | r in t.records && l == LineOf(t.book, r)
      ensures IsOpen(u.settlements, r, w, from, to)
         <==> IsOpen(t.settlements, r, w, from, to) && l.payable !in Payables(chosen)
    {
    }
  }

  /** The money moves from what is pending to what is owed, and none is lost on the way. */
  lemma SettleConserves(t: Tenant, q: Request, today: Day, minted: Id)
    requires Sound(t) && Settle(t, q, today, minted).1.Done?
    ensures var u := Settle(t, q, today, minted).0;
            Gross(Pending(u, q.worker, q.from, q.to)) + BalanceOf(u.ledger, q.worker).balance
            == Gross(Pending(t, q.worker, q.from, q.to)) + BalanceOf(t.ledger, q.worker).balance
  {
    hide RecordsKept, SettlementsKept, WellFormed, EarningsKept, ClaimsKept, SettlementKept, Pending, Refusal, Gross;
    var (u, a) := Settle(t, q, today, minted);
    var all := Pending(t, q.worker, q.from, q.to);
    var chosen := Chosen(all, q.wanted);
    SettleTakesExactly(t, q, today, minted, q.worker, q.from, q.to);
    PendingDistinct(t, q.worker, q.from, q.to);
    ChosenSplits(all, q.wanted);
    SumConcat(t.ledger, [EarningOf(a.value, today, minted)], Of(q.worker));
    SumOne(EarningOf(a.value, today, minted), Of(q.worker));
  }

  lemma {:induction false} GrossConcat(a: seq<Line>, b: seq<Line>)
    ensures Gross(a + b) == Gross(a) + Gross(b)
  {
    if b == [] {
      assert a + b == a;
    } else {
      assert (a + b)[..|a + b| - 1] == a + b[..|b| - 1];
      GrossConcat(a, b[..|b| - 1]);
    }
  }

  lemma GrossCons(l: Line, ls: seq<Line>)
    ensures Gross([l] + ls) == l.amount + Gross(ls)
  {
    GrossConcat([l], ls);
    assert [l][..0] == [];
  }

  lemma {:induction false} NamedSplits(ls: seq<Line>, ids: seq<Id>)
    ensures Gross(ls) == Gross(Named(ls, ids)) + Gross(Without(ls, ids))
  {
    hide Gross;
    if ls == [] {
      GrossConcat([], []);
      assert [] + [] == ls;
    } else {
      NamedSplits(ls[1..], ids);
      assert ls == [ls[0]] + ls[1..];
      GrossCons(ls[0], ls[1..]);
      GrossCons(ls[0], Named(ls[1..], ids));
      GrossCons(ls[0], Without(ls[1..], ids));
    }
  }

  lemma {:induction false} WithoutSame(ls: seq<Line>, ids: seq<Id>, js: seq<Id>)
    requires forall l :: l in ls ==> (l.payable in ids <==> l.payable in js)
    ensures Without(ls, ids) == Without(ls, js)
  {
    if ls != [] {
      assert ls == [ls[0]] + ls[1..];
      WithoutSame(ls[1..], ids, js);
    }
  }

  lemma ChosenSplits(all: seq<Line>, wanted: seq<Id>)
    ensures Gross(all) == Gross(Chosen(all, wanted)) + Gross(Without(all, Payables(Chosen(all, wanted))))
  {
    hide Gross;
    var ids := if wanted == [] then Payables(all) else wanted;
    forall l | l in all ensures l.payable in ids <==> l.payable in Payables(Chosen(all, wanted)) {
      var chosen := Chosen(all, wanted);
      if l in chosen { var k :| 0 <= k < |chosen| && chosen[k] == l; assert Payables(chosen)[k] == l.payable; }
      if l.payable in Payables(chosen) {
        var k :| 0 <= k < |chosen| && Payables(chosen)[k] == l.payable;
        assert chosen[k] in chosen;
      }
    }
    WithoutSame(all, ids, Payables(Chosen(all, wanted)));
    NamedSplits(all, ids);
    if wanted == [] {
      NamedAll(all, ids);
    }
  }

  lemma {:induction false} NamedAll(ls: seq<Line>, ids: seq<Id>)
    requires forall l :: l in ls ==> l.payable in ids
    ensures Named(ls, ids) == ls
  {
    if ls != [] {
      assert ls == [ls[0]] + ls[1..];
      NamedAll(ls[1..], ids);
    }
  }

  /* ---- one void ---- */

  lemma SettledWithout(ss: seq<Settlement>, k: nat, v: Settlement, p: Id)
    requires OneClaim(ss) && k < |ss| && !Claims(v, p)
    ensures IsSettled(ss[k := v], p) <==> IsSettled(ss, p) && !Claims(ss[k], p)
  {
    hide Claims;
    var us := ss[k := v];
    if IsSettled(us, p) {
      var x :| x in us && Claims(x, p);
      var j :| 0 <= j < |us| && us[j] == x;
      assert j != k && ss[j] in ss;
      assert if j < k then !Claims(ss[k], p) else true;
    }
    if IsSettled(ss, p) && !Claims(ss[k], p) {
      var x :| x in ss && Claims(x, p);
      var j :| 0 <= j < |ss| && ss[j] == x;
      assert us[j] in us;
    }
  }

  /** Voiding puts back exactly the work that settlement claimed, takes its gross out of the
      balance unless its earning had been reversed already, and touches nobody else. */
  lemma VoidReleasesExactly(t: Tenant, id: Id, today: Day, reversals: seq<Id>, r: Record, w: Id, from: Day, to: Day)
    requires Sound(t) && Proper(t, Voiding(id, today, reversals)) && Void(t, id, today, reversals).1.Done?
    requires r in t.records && r.worker == w && !r.deleted && from <= r.from <= to
    ensures var u := Void(t, id, today, reversals).0;
            var s := t.settlements[IndexOf(t.settlements, id).value];
            && (LineOf(u.book, r) in Pending(u, w, from, to)
                <==> LineOf(t.book, r) in Pending(t, w, from, to) || Claims(s, r.id))
            && BalanceOf(u.ledger, s.worker).balance
               == BalanceOf(t.ledger, s.worker).balance
               - (if Unreversed(t.ledger, t.ledger, id) == [] then 0 else s.gross)
            && forall x :: x != s.worker ==> BalanceOf(u.ledger, x) == BalanceOf(t.ledger, x)
  {
    hide RecordsKept, WellFormed, EarningsKept, ClaimsKept, SettlementKept, Pending, LineOf, IsSettled, Unreversed,
         BalanceOf, Claims, VoidItems;
    var (u, a) := Void(t, id, today, reversals);
    var k := IndexOf(t.settlements, id).value;
    var s := t.settlements[k];
    SettlementAt(t.settlements, k);
    VoidedKept(s);
    SettledWithout(t.settlements, k, a.value, r.id);
    ListedIffOpen(t, w, from, to, r);
    ListedIffOpen(u, w, from, to, r);
    VoidLedger(t, k, today, reversals);
    VoidBalance(t, u, k, today, reversals);
  }

  lemma VoidBalance(t: Tenant, u: Tenant, k: nat, today: Day, reversals: seq<Id>)
    requires k < |t.settlements|
    requires var s := t.settlements[k];
             var open := Unreversed(t.ledger, t.ledger, s.id);
             && |reversals| == |open|
             && (open == [] ==> u.ledger == t.ledger)
             && (open != [] ==> Pays(open[0], s) && u.ledger == t.ledger + [ReversalOf(open[0], today, reversals[0])])
    ensures var s := t.settlements[k];
            && BalanceOf(u.ledger, s.worker).balance
               == BalanceOf(t.ledger, s.worker).balance
               - (if Unreversed(t.ledger, t.ledger, s.id) == [] then 0 else s.gross)
            && forall x :: x != s.worker ==> BalanceOf(u.ledger, x) == BalanceOf(t.ledger, x)
  {
    hide Sum, Unreversed;
    var s := t.settlements[k];
    var open := Unreversed(t.ledger, t.ledger, s.id);
    if open != [] {
      var r := ReversalOf(open[0], today, reversals[0]);
      SumConcat(t.ledger, [r], Of(s.worker));
      SumOne(r, Of(s.worker));
      forall x | x != s.worker ensures BalanceOf(u.ledger, x) == BalanceOf(t.ledger, x) {
        OthersUnmoved(t.ledger, r, x);
      }
    }
  }

  lemma ListedIffOpen(t: Tenant, w: Id, from: Day, to: Day, r: Record)
    requires RecordsKept(t.records) && r in t.records && r.worker == w && !r.deleted && from <= r.from <= to
    ensures LineOf(t.book, r) in Pending(t, w, from, to) <==> !IsSettled(t.settlements, r.id)
  {
    hide Pending, RecordsKept;
    if LineOf(t.book, r) in Pending(t, w, from, to) {
      var x := PendingLine(t, w, from, to, LineOf(t.book, r));
    } else {
      if !IsSettled(t.settlements, r.id) { OpenIsPending(t, w, from, to, r); }
    }
  }

  /* ---- settle, then void ---- */

  lemma SettledBack(ss: seq<Settlement>, s: Settlement, v: Settlement)
    requires forall p :: !Claims(v, p)
    ensures forall p :: IsSettled(ss + [v], p) <==> IsSettled(ss, p)
  {
    hide Claims;
    assert forall x :: x in ss + [v] <==> x in ss || x == v;
  }

  lemma {:induction false} OpenAgrees(ss: seq<Settlement>, us: seq<Settlement>, rs: seq<Record>, w: Id, from: Day,
                                      to: Day)
    requires forall p :: IsSettled(us, p) <==> IsSettled(ss, p)
    ensures OpenRecords(us, rs, w, from, to) == OpenRecords(ss, rs, w, from, to)
  {
    hide IsSettled;
    if rs != [] { OpenAgrees(ss, us, rs[1..], w, from, to); }
  }

  lemma PendingAgrees(t: Tenant, u: Tenant, w: Id, from: Day, to: Day)
    requires u.records == t.records && u.book == t.book
    requires forall p :: IsSettled(u.settlements, p) <==> IsSettled(t.settlements, p)
    ensures Pending(u, w, from, to) == Pending(t, w, from, to)
  {
    OpenAgrees(t.settlements, u.settlements, t.records, w, from, to);
  }

  lemma IndexOfLast(ss: seq<Settlement>, s: Settlement)
    requires IndexOf(ss, s.id).None?
    ensures IndexOf(ss + [s], s.id) == Some(|ss|)
  {
    if ss != [] {
      assert (ss + [s])[1..] == ss[1..] + [s];
      IndexOfLast(ss[1..], s);
    }
  }

  lemma {:induction false} NoneUnreversed(all: seq<Movement>, ms: seq<Movement>, id: Id)
    requires forall m :: m in ms && m.kind.Devengo? ==> m.settlement != Some(id)
    ensures Unreversed(all, ms, id) == []
  {
    if ms != [] {
      assert ms[|ms| - 1] in ms;
      NoneUnreversed(all, ms[..|ms| - 1], id);
    }
  }

  lemma UnreversedLast(ms: seq<Movement>, s: Settlement, today: Day, minted: Id)
    requires WellFormed(ms) && !Used(ms, minted)
    requires forall m :: m in ms && m.kind.Devengo? ==> m.settlement != Some(s.id)
    ensures var e := EarningOf(s, today, minted); Unreversed(ms + [e], ms + [e], s.id) == [e]
  {
    var e := EarningOf(s, today, minted);
    NewIdUnreversed(ms, e);
    hide WellFormed, Reversed;
    NoneUnreversed(ms + [e], ms, s.id);
    assert (ms + [e])[..|ms|] == ms && [] + [e] == [e];
  }

  lemma NewIdUnreversed(ms: seq<Movement>, e: Movement)
    requires WellFormed(ms) && !Used(ms, e.id) && e.reverses.None?
    ensures !Reversed(ms + [e], e.id)
  {
    RowsValid(ms);
  }

  /** A settlement voided at once leaves every list of pending work and every figure of the
      balance as they were, though its frozen lines stay on record. */
  lemma SettleThenVoid(t: Tenant, q: Request, today: Day, minted: Id, later: Day, reversal: Id, w: Id, from: Day,
                       to: Day)
    requires Sound(t) && !Used(t.ledger, minted) && Settle(t, q, today, minted).1.Done?
    ensures var (u, a) := Settle(t, q, today, minted);
            && |Unreversed(u.ledger, u.ledger, q.id)| == 1
            && var (v, b) := Void(u, q.id, later, [reversal]);
               && b == Done(Voided(a.value))
               && Pending(v, w, from, to) == Pending(t, w, from, to)
               && BalanceOf(v.ledger, w) == BalanceOf(t.ledger, w)
  {
    hide RecordsKept, SettlementsKept, WellFormed, ClaimsKept, SettlementKept, Pending, Refusal, NewSettlement,
         IsSettled, BalanceOf, Unreversed, Claims, VoidItems, OneEarning, VoidsReversed;
    var (u, a) := Settle(t, q, today, minted);
    var s := a.value;
    var chosen := Chosen(Pending(t, q.worker, q.from, q.to), q.wanted);
    NewSettlementKept(t, q);
    NoEarningYet(t.settlements, t.ledger, s.id);
    UnreversedLast(t.ledger, s, today, minted);
    IndexOfLast(t.settlements, s);
    var e := EarningOf(s, today, minted);
    var v := Void(u, q.id, later, [reversal]).0;
    VoidedKept(s);
    assert u.settlements[|t.settlements| := Voided(s)] == t.settlements + [Voided(s)];
    SettledBack(t.settlements, s, Voided(s));
    PendingAgrees(t, v, w, from, to);
    UndoneBalance(t.ledger, e, ReversalOf(e, later, reversal), w);
    assert v.ledger == t.ledger + [e] + [ReversalOf(e, later, reversal)];
  }

  lemma UndoneBalance(ms: seq<Movement>, e: Movement, r: Movement, w: Id)
    requires e.kind.Devengo? && e.amount > 0 && Cancels(r, e)
    ensures BalanceOf(ms + [e] + [r], w) == BalanceOf(ms, w)
  {
    hide BalanceOf;
    if w == e.worker {
      ReversalRestores(ms, e, [], r);
      assert ms + [e] + [] + [r] == ms + [e] + [r] && ms + [] == ms;
    } else {
      OthersUnmoved(ms, e, w);
      OthersUnmoved(ms + [e], r, w);
    }
  }

  /* ---- what the farm owes for work ---- */

  function Stands(ms: seq<Movement>, s: Settlement): (b: bool) { Unreversed(ms, ms, s.id) != [] }

  /** The gross of a worker's settlements whose earning still stands. */
  function Owed(ss: seq<Settlement>, ms: seq<Movement>, w: Id): (cents: Cents) {
    if ss == [] then 0
    else
      var s := ss[|ss| - 1];
      Owed(ss[..|ss| - 1], ms, w) + if s.worker == w && Stands(ms, s) then s.gross else 0
  }

  function OpenGross(ss: seq<Settlement>, w: Id): (cents: Cents) {
    if ss == [] then 0
    else
      var s := ss[|ss| - 1];
      OpenGross(ss[..|ss| - 1], w) + if s.worker == w && !s.voided then s.gross else 0
  }

  ghost predicate Among(ss: seq<Settlement>, id: Option<Id>) { exists s :: s in ss && id == Some(s.id) }

  /** The standing earnings of the first settlements. */
  ghost function EarnedBy(ss: seq<Settlement>, ms: seq<Movement>, w: Id): Movement -> bool {
    (m: Movement) => m.worker == w && m.kind.Devengo? && !Reversed(ms, m.id) && Among(ss, m.settlement)
  }

  function Cash(ms: seq<Movement>, w: Id): Movement -> bool { (m: Movement) => Live(ms, w)(m) && !m.kind.Devengo? }

  lemma {:induction false} SumNone(ms: seq<Movement>, pick: Movement -> bool)
    requires forall m :: m in ms ==> !pick(m)
    ensures Sum(ms, pick) == 0
  {
    if ms != [] {
      assert ms[|ms| - 1] in ms;
      SumNone(ms[..|ms| - 1], pick);
    }
  }

  lemma {:induction false} OwedIsEarned(t: Tenant, k: nat, w: Id)
    requires Sound(t) && k <= |t.settlements|
    ensures Sum(t.ledger, EarnedBy(t.settlements[..k], t.ledger, w)) == Owed(t.settlements[..k], t.ledger, w)
  {
    hide RecordsKept, ClaimsKept, SettlementKept, OneClaim, WellFormed, VoidsReversed, Sum;
    var ms := t.ledger;
    if k == 0 {
      SumNone(ms, EarnedBy([], ms, w));
      assert t.settlements[..0] == [];
    } else {
      OwedIsEarned(t, k - 1, w);
      assert t.settlements[..k][..k - 1] == t.settlements[..k - 1];
      OneMore(t, k - 1, w);
    }
  }

  lemma AmongOneMore(ss: seq<Settlement>, k: nat, id: Option<Id>)
    requires k < |ss|
    ensures Among(ss[..k + 1], id) <==> Among(ss[..k], id) || id == Some(ss[k].id)
  {
    assert ss[..k + 1] == ss[..k] + [ss[k]];
    assert forall s :: s in ss[..k + 1] <==> s in ss[..k] || s == ss[k];
  }

  lemma OneMore(t: Tenant, k: nat, w: Id)
    requires Sound(t) && k < |t.settlements|
    ensures var s := t.settlements[k];
            Sum(t.ledger, EarnedBy(t.settlements[..k + 1], t.ledger, w))
            == Sum(t.ledger, EarnedBy(t.settlements[..k], t.ledger, w))
            + if s.worker == w && Stands(t.ledger, s) then s.gross else 0
  {
    hide RecordsKept, ClaimsKept, SettlementKept, OneClaim, WellFormed, VoidsReversed, Sum, Among, Answered;
    var ms, s := t.ledger, t.settlements[k];
    var p, q := EarnedBy(t.settlements[..k], ms, w), EarnedBy(t.settlements[..k + 1], ms, w);
    var open := Unreversed(ms, ms, s.id);
    forall m
      ensures q(m) <==> p(m)
                        || (m.worker == w && m.kind.Devengo? && !Reversed(ms, m.id) && m.settlement == Some(s.id))
    {
      AmongOneMore(t.settlements, k, m.settlement);
    }
    NotAmong(t, k);
    OpenEarnings(t, k);
    if s.worker == w && open != [] {
      var e := open[0];
      assert e in open;
      RowsValid(ms);
      forall x | x in ms && x.id != e.id ensures q(x) == p(x) {
        assert SameEarning(x, e) ==> x == e;
      }
      SumWithout(ms, q, p, e);
    } else {
      forall m | m in ms ensures q(m) == p(m) {
        if m.kind.Devengo? && m.settlement == Some(s.id) {
          EarningOfSettlement(t, k, m);
          assert m in open <==> !Reversed(ms, m.id);
        }
      }
      SumAgrees(ms, p, q);
    }
  }

  lemma NotAmong(t: Tenant, k: nat)
    requires Sound(t) && k < |t.settlements|
    ensures !Among(t.settlements[..k], Some(t.settlements[k].id))
  {
    hide RecordsKept, ClaimsKept, SettlementKept, OneClaim, WellFormed, EarningsKept;
  }

  /** Whatever has happened, a worker's balance is the work whose earning stands plus the
      cash and corrections that stand: nothing else is in it, and nothing is in it twice. */
  lemma BalanceIsWorkAndCash(t: Tenant, w: Id)
    requires Sound(t)
    ensures BalanceOf(t.ledger, w).balance == Owed(t.settlements, t.ledger, w) + Sum(t.ledger, Cash(t.ledger, w))
  {
    hide RecordsKept, ClaimsKept, SettlementsKept, WellFormed, VoidsReversed, Sum, OneEarning;
    var ms := t.ledger;
    BalanceIsLive(ms, w);
    OwedIsEarned(t, |t.settlements|, w);
    assert t.settlements[..|t.settlements|] == t.settlements;
    forall m | m in ms && m.kind.Devengo? ensures Among(t.settlements, m.settlement) {
      var s :| s in t.settlements && Pays(m, s);
    }
    SumSplit(ms, Live(ms, w), EarnedBy(t.settlements, ms, w), Cash(ms, w));
  }

  lemma {:induction false} OwedAgainstOpen(ss: seq<Settlement>, ms: seq<Movement>, w: Id)
    requires forall s :: s in ss ==> s.gross > 0 && (Stands(ms, s) ==> !s.voided)
    ensures Owed(ss, ms, w) <= OpenGross(ss, w)
    ensures Owed(ss, ms, w) == OpenGross(ss, w) <==> forall s :: s in ss && s.worker == w && !s.voided ==> Stands(ms, s)
  {
    if ss != [] {
      var front, s := ss[..|ss| - 1], ss[|ss| - 1];
      assert ss == front + [s];
      assert s in ss;
      OwedAgainstOpen(front, ms, w);
    }
  }

  /** Work settled and work owed are the same money exactly when no earning of an open
      settlement has been reversed by itself. */
  lemma OwedExact(t: Tenant, w: Id)
    requires Sound(t)
    ensures BalanceOf(t.ledger, w).balance == OpenGross(t.settlements, w) + Sum(t.ledger, Cash(t.ledger, w))
       <==> forall s :: s in t.settlements && s.worker == w && !s.voided ==> Stands(t.ledger, s)
  {
    hide RecordsKept, ClaimsKept, WellFormed, Sum, Unreversed, BalanceOf, OneEarning, OneClaim, Answered;
    BalanceIsWorkAndCash(t, w);
    forall s | s in t.settlements ensures s.gross > 0 && (Stands(t.ledger, s) ==> !s.voided) {
      StandingIsOpen(t, s);
    }
    OwedAgainstOpen(t.settlements, t.ledger, w);
  }

  lemma StandingIsOpen(t: Tenant, s: Settlement)
    requires Sound(t) && s in t.settlements
    ensures s.gross > 0 && (Stands(t.ledger, s) ==> !s.voided)
  {
    hide RecordsKept, ClaimsKept, WellFormed, OneEarning, OneClaim, Answered;
    if Stands(t.ledger, s) {
      var open := Unreversed(t.ledger, t.ledger, s.id);
      assert open[0] in open;
      var k :| 0 <= k < |t.settlements| && t.settlements[k] == s;
      OpenEarnings(t, k);
    }
  }

  /** Reversing an earning without voiding its settlement strands the work: it is claimed, so
      no longer pending, and yet no longer owed. */
  lemma ReversedEarningStrands(t: Tenant, m: Movement, today: Day, minted: Id, s: Settlement)
    requires Sound(t) && s in t.settlements && !s.voided && m in t.ledger && Pays(m, s) && !Reversed(t.ledger, m.id)
    requires !Used(t.ledger, minted)
    ensures var (u, a) := Reverse(t, m.id, today, minted);
            && a.Done? && Sound(u)
            && BalanceOf(u.ledger, s.worker).balance == BalanceOf(t.ledger, s.worker).balance - s.gross
            && forall i :: i in s.items ==> IsSettled(u.settlements, i.payable)
  {
    hide RecordsKept, ClaimsKept, WellFormed, EarningsKept, OneClaim, Sum, IsSettled;
    var found := Find(t.ledger, m.id);
    FoundIs(t.ledger, m);
    ReverseSound(t, m.id, today, minted);
    var r := ReversalOf(m, today, minted);
    SumConcat(t.ledger, [r], Of(s.worker));
    SumOne(r, Of(s.worker));
    forall i | i in s.items ensures IsSettled(t.settlements, i.payable) { ItemSettled(t.settlements, s, i); }
  }

  lemma ItemSettled(ss: seq<Settlement>, s: Settlement, i: Item)
    requires s in ss && i in s.items && !i.voided
    ensures IsSettled(ss, i.payable)
  {
    assert Claims(s, i.payable);
  }

  lemma FoundIs(ms: seq<Movement>, m: Movement)
    requires WellFormed(ms) && m in ms
    ensures Find(ms, m.id) == Some(m)
  {
    RowsValid(ms);
    assert Used(ms, m.id);
    var f := Find(ms, m.id).value;
    var i, j :| 0 <= i < |ms| && 0 <= j < |ms| && ms[i] == m && ms[j] == f;
  }

  /** A farm that starts with people and prices and nothing else, whatever is done to it: no
      payable is ever claimed twice, every gross is the sum of its lines and has its earning,
      every live line is work still there, and every balance is standing work plus live cash. */
  lemma FromNewFarm(workers: set<Id>, book: Book, steps: seq<Step>, w: Id)
    requires ProperRun(Tenant(workers, [], book, [], []), steps)
    ensures var u := Run(Tenant(workers, [], book, [], []), steps);
            && (forall a, b, p :: 0 <= a < b < |u.settlements| && Claims(u.settlements[a], p)
                  ==> !Claims(u.settlements[b], p))
            && (forall s :: s in u.settlements ==>
                  s.gross == GrossOf(s.items) && s.gross > 0 && HasEarning(u.ledger, s))
            && (forall s, i :: s in u.settlements && i in s.items && !i.voided ==> Backed(u.records, s, i))
            && BalanceOf(u.ledger, w).balance == Owed(u.settlements, u.ledger, w) + Sum(u.ledger, Cash(u.ledger, w))
  {
    hide Apply, Proper, Run, ProperRun, Claims, HasEarning, Backed, Owed, Sum, Cash, BalanceOf;
    var bare := Tenant(workers, [], book, [], []);
    assert Sound(bare) by { EmptyFarmIsSound(workers, book); }
    RunSound(bare, steps);
    BalanceIsWorkAndCash(Run(bare, steps), w);
  }

  /* ---- one record ---- */

  lemma {:induction false} RateInForceIsLatest(rates: seq<RateRow>, on: Day)
    ensures match RateInForce(rates, on)
            case None => forall x :: x in rates ==> x.validFrom > on
            case Some(r) => r in rates && r.validFrom <= on
                            && forall x :: x in rates && x.validFrom <= on ==> x.validFrom <= r.validFrom
  {
    if rates != [] {
      var n := |rates| - 1;
      assert rates == rates[..n] + [rates[n]];
      RateInForceIsLatest(rates[..n], on);
    }
  }

  /** What a new record is worth now: the rate its caller named, else the week's for weekly
      work, else the activity's rate in force on the day; a contract counts as one. */
  ghost predicate WorthAsDrafted(t: Tenant, d: Draft, l: Line)
    requires d.activity.Some?
  {
    var a := d.activity.value;
    var quantity := if a.contract then ONE else d.quantity;
    && l.payable == d.id && l.day == d.from && l.quantity == quantity
    && l.week <= d.from <= l.week + 6 && Calendar.IsMonday(l.week)
    && l.amount == Worth(quantity, l.rate)
    && (d.named.Some? ==> Some(l.rate) == d.named)
    && (d.named.None? && a.weekly ==> l.rate == KiloPriceOf(t.book, Query(d.worker, d.plots, l.week)).cents)
    && (d.named.None? && !a.weekly ==>
          exists r :: r in a.rates && r.validFrom <= d.from && l.rate == r.cents
                      && forall x :: x in a.rates && x.validFrom <= d.from ==> x.validFrom <= r.validFrom)
  }

  lemma DraftedLine(t: Tenant, d: Draft)
    requires Register(t, d).1.Done?
    ensures d.activity.Some? && WorthAsDrafted(t, d, LineOf(t.book, Register(t, d).1.value))
  {
    hide Worth, KiloPriceOf, WeekPriceOf, NewestFirstOf;
    RateInForceIsLatest(d.activity.value.rates, d.from);
  }

  /** Registering adds one line to the worker's pending work, priced as drafted, and changes no
      other line of anybody's. */
  lemma RegisterAddsOneLine(t: Tenant, d: Draft, w: Id, from: Day, to: Day, l: Line)
    requires Sound(t) && Register(t, d).1.Done?
    ensures var (u, a) := Register(t, d);
            var added := LineOf(u.book, a.value);
            && d.activity.Some? && WorthAsDrafted(t, d, added)
            && (l in Pending(u, w, from, to) <==>
                  l in Pending(t, w, from, to) || (l == added && w == d.worker && from <= d.from <= to))
  {
    hide RecordsKept, SettlementsKept, WellFormed, EarningsKept, Pending, LineOf, WorthAsDrafted, Worth, WeekPriceOf,
         NewestFirstOf, PriceOf, IsSettled;
    var (u, a) := Register(t, d);
    DraftedLine(t, d);
    UnclaimedIfNew(t, d.id);
    PendingIs(t, w, from, to, l);
    PendingIs(u, w, from, to, l);
    assert u.records == [a.value] + t.records && u.settlements == t.settlements && u.book == t.book;
    assert forall r :: r in u.records <==> r == a.value || r in t.records;
  }

  lemma ClaimedIsRecorded(t: Tenant, p: Id)
    requires ClaimsKept(t.records, t.settlements) && IsSettled(t.settlements, p)
    ensures exists r :: r in t.records && r.id == p
  {
    var s :| s in t.settlements && Claims(s, p);
    var i :| i in s.items && i.payable == p && !i.voided;
    assert Backed(t.records, s, i);
  }

  lemma UnclaimedIfNew(t: Tenant, id: Id)
    requires Sound(t) && RecordAt(t.records, id).None?
    ensures !IsSettled(t.settlements, id)
  {
    hide RecordsKept, SettlementsKept, WellFormed, EarningsKept, ClaimsKept, IsSettled;
    if IsSettled(t.settlements, id) { ClaimedIsRecorded(t, id); }
  }

  /** Removing a record takes its line, and no other, out of the pending work. */
  lemma RemoveTakesOneLine(t: Tenant, id: Id, w: Id, from: Day, to: Day)
    requires Sound(t) && Remove(t, id).1.Done?
    ensures Pending(Remove(t, id).0, w, from, to) == Without(Pending(t, w, from, to), [id])
  {
    hide SettlementsKept, WellFormed, EarningsKept, ClaimsKept, Pending, LineOf, IsSettled, RecordsKept;
    var u := Remove(t, id).0;
    var k := RecordAt(t.records, id).value;
    RemoveSound(t, id);
    PendingInOrder(t, w, from, to);
    PendingInOrder(u, w, from, to);
    WithoutInOrder(Pending(t, w, from, to), [id]);
    forall l ensures l in Pending(u, w, from, to) <==> l in Without(Pending(t, w, from, to), [id]) {
      PendingIs(t, w, from, to, l);
      PendingIs(u, w, from, to, l);
      OthersStay(t, u, k);
    }
    SameLines(Pending(u, w, from, to), Without(Pending(t, w, from, to), [id]));
  }

  lemma OthersStay(t: Tenant, u: Tenant, k: nat)
    requires RecordsKept(t.records) && k < |t.records| && u.records == t.records[k := t.records[k].(deleted := true)]
    ensures forall r :: r in u.records && !r.deleted <==> r in t.records && !r.deleted && r.id != t.records[k].id
  {
    hide PricedRight;
    var rs, us := t.records, u.records;
    forall r | r in us && !r.deleted ensures r in rs && r.id != rs[k].id {
      var i :| 0 <= i < |us| && us[i] == r;
      assert i != k && rs[i] == r;
    }
    forall r | r in rs && !r.deleted && r.id != rs[k].id ensures r in us {
      var i :| 0 <= i < |rs| && rs[i] == r;
      assert us[i] == r;
    }
  }

  /** Correcting the quantity of an open record changes that quantity and the amount that
      follows from it; what decides the price is out of reach. */
  lemma CorrectKeepsPrice(t: Tenant, p: Patch)
    requires Sound(t) && Correct(t, p).1.Done?
    ensures var (u, a) := Correct(t, p);
            var k := RecordAt(t.records, p.id).value;
            var was, now := t.records[k], a.value;
            && !IsSettled(t.settlements, p.id) && u.records == t.records[k := now] && was.id == p.id
            && now == was.(deleted := p.active == Some(false),
                           quantity := if p.active != Some(false) && p.quantity.Some? then p.quantity.value
                                       else was.quantity,
                           amount := now.amount)
            && LineOf(u.book, now).rate == LineOf(t.book, was).rate
            && (was.source.Weekly? || (p.quantity.Some? && p.active != Some(false)) ==>
                  LineOf(u.book, now).amount == Worth(now.quantity, LineOf(t.book, was).rate))
  {
    hide SettlementsKept, WellFormed, EarningsKept, ClaimsKept, Worth, KiloPriceOf, IsSettled;
    RecordRight(t, RecordAt(t.records, p.id).value);
  }

  /* ---- one movement ---- */

  /** A movement lands on its worker's balance with the sign of its kind, and on nobody
      else's. */
  lemma PayMovesBalance(t: Tenant, p: Payment)
    requires Served(p.kind) && Pay(t, p).1.Done?
    ensures var (u, a) := Pay(t, p);
            && IsValidAmount(p.kind, a.value.amount) && Amount.Abs(a.value.amount) == Amount.Abs(p.cents)
            && BalanceOf(u.ledger, p.worker).balance == BalanceOf(t.ledger, p.worker).balance + a.value.amount
            && (p.kind.Pago? && !p.overpay ==> BalanceOf(u.ledger, p.worker).balance >= 0)
            && forall w :: w != p.worker ==> BalanceOf(u.ledger, w) == BalanceOf(t.ledger, w)
  {
    hide Sum, Find;
    var (u, a) := Pay(t, p);
    SumConcat(t.ledger, [a.value], Of(p.worker));
    SumOne(a.value, Of(p.worker));
    forall w | w != p.worker ensures BalanceOf(u.ledger, w) == BalanceOf(t.ledger, w) {
      OthersUnmoved(t.ledger, a.value, w);
    }
  }

  /** A reversal takes a movement's amount back off the balance, once: a second one, and one of
      the reversal itself, are refused. */
  lemma ReverseOnce(t: Tenant, id: Id, today: Day, minted: Id, again: Day, other: Id)
    requires Sound(t) && !Used(t.ledger, minted) && Reverse(t, id, today, minted).1.Done?
    ensures var (u, a) := Reverse(t, id, today, minted);
            var m := Find(t.ledger, id).value;
            && BalanceOf(u.ledger, m.worker).balance == BalanceOf(t.ledger, m.worker).balance - m.amount
            && (forall w :: w != m.worker ==> BalanceOf(u.ledger, w) == BalanceOf(t.ledger, w))
            && Reverse(u, id, again, other) == (u, Refused(AlreadyReversed))
            && Reverse(u, minted, again, other) == (u, Refused(AlreadyReversed))
  {
    hide Sum, RecordsKept, SettlementsKept, ClaimsKept, EarningsKept;
    var (u, a) := Reverse(t, id, today, minted);
    var m := Find(t.ledger, id).value;
    ReverseSound(t, id, today, minted);
    SumConcat(t.ledger, [a.value], Of(m.worker));
    SumOne(a.value, Of(m.worker));
    forall w | w != m.worker ensures BalanceOf(u.ledger, w) == BalanceOf(t.ledger, w) {
      OthersUnmoved(t.ledger, a.value, w);
    }
    assert m in u.ledger && a.value in u.ledger;
    FoundIs(u.ledger, m);
    FoundIs(u.ledger, a.value);
  }

  /** Voiding is for good: every line goes, and a second void is refused. */
  lemma VoidOnce(t: Tenant, id: Id, today: Day, reversals: seq<Id>, again: Day, more: seq<Id>)
    requires Sound(t) && Proper(t, Voiding(id, today, reversals)) && Void(t, id, today, reversals).1.Done?
    ensures var (u, a) := Void(t, id, today, reversals);
            && a.value.voided && (forall i :: i in a.value.items ==> i.voided)
            && (Proper(u, Voiding(id, again, more)) ==> Void(u, id, again, more) == (u, Refused(AlreadyVoid)))
  {
    hide Sound, Unreversed, Used;
    var (u, a) := Void(t, id, today, reversals);
    var k := IndexOf(t.settlements, id).value;
    IndexKept(t.settlements, id, a.value);
  }

  lemma {:induction false} IndexKept(ss: seq<Settlement>, id: Id, v: Settlement)
    requires IndexOf(ss, id).Some? && v.id == id
    ensures IndexOf(ss[IndexOf(ss, id).value := v], id) == IndexOf(ss, id)
  {
    if ss[0].id != id {
      IndexKept(ss[1..], id, v);
      var k := IndexOf(ss[1..], id).value;
      assert ss[k + 1 := v][1..] == ss[1..][k := v];
    }
  }
}
