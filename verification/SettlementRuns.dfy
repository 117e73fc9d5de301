/** What every run of register, correct, reprice, settle, void, pay and reverse keeps. */
module SettlementRuns {
  import opened Text
  import opened PriceRules
  import opened Ledger
  import opened Settlement
  import Calendar

  /* ---- the invariant ---- */

  /** A weekly price is never written down; any other rate fixes the amount. */
  predicate PricedRight(r: Record) {
    && (r.source.Weekly? <==> r.rate.None?)
    && r.amount == (if r.rate.None? then None else Some(Worth(r.quantity, r.rate.value)))
  }

  ghost predicate IdsDistinct(rs: seq<Record>) { forall i, j :: 0 <= i < j < |rs| ==> rs[i].id != rs[j].id }

  ghost predicate RecordsKept(rs: seq<Record>) {
    IdsDistinct(rs) && forall r :: r in rs ==> PricedRight(r)
  }

  ghost predicate SettlementKept(s: Settlement) {
    && s.gross == GrossOf(s.items) && s.gross > 0
    && (forall i :: i in s.items ==> i.voided == s.voided && i.amount == Worth(i.quantity, i.rate))
    && forall a, b :: 0 <= a < b < |s.items| ==> s.items[a].payable != s.items[b].payable
  }

  /** No payable has two live claims. */
  ghost predicate OneClaim(ss: seq<Settlement>) {
    forall a, b, p :: 0 <= a < b < |ss| && Claims(ss[a], p) ==> !Claims(ss[b], p)
  }

  ghost predicate SettlementsKept(ss: seq<Settlement>) {
    && (forall a, b :: 0 <= a < b < |ss| ==> ss[a].id != ss[b].id)
    && (forall s :: s in ss ==> SettlementKept(s))
    && OneClaim(ss)
  }

  predicate Holds(r: Record, s: Settlement, i: Item) {
    r.id == i.payable && !r.deleted && r.worker == s.worker && r.quantity == i.quantity && r.week == i.week
  }

  ghost predicate Backed(rs: seq<Record>, s: Settlement, i: Item) { exists r :: r in rs && Holds(r, s, i) }

  /** What is claimed is still there, unchanged, and the worker's own. */
  ghost predicate ClaimsKept(rs: seq<Record>, ss: seq<Settlement>) {
    forall s, i :: s in ss && i in s.items && !i.voided ==> Backed(rs, s, i)
  }

  ghost predicate Pays(m: Movement, s: Settlement) {
    m.kind.Devengo? && m.settlement == Some(s.id) && m.worker == s.worker && m.amount == s.gross
  }

  ghost predicate HasEarning(ms: seq<Movement>, s: Settlement) { exists m :: m in ms && Pays(m, s) }

  ghost predicate HasSettlement(ss: seq<Settlement>, m: Movement) { exists s :: s in ss && Pays(m, s) }

  predicate SameEarning(m: Movement, n: Movement) { m.kind.Devengo? && n.kind.Devengo? && m.settlement == n.settlement }

  ghost predicate Answered(ss: seq<Settlement>, ms: seq<Movement>) {
    && (forall m :: m in ms && m.kind.Devengo? ==> HasSettlement(ss, m))
    && (forall s :: s in ss ==> HasEarning(ms, s))
  }

  ghost predicate OneEarning(ms: seq<Movement>) { forall m, n :: m in ms && n in ms && SameEarning(m, n) ==> m == n }

  ghost predicate VoidsReversed(ss: seq<Settlement>, ms: seq<Movement>) {
    forall s, m :: s in ss && m in ms && s.voided && Pays(m, s) ==> Reversed(ms, m.id)
  }

  /** One earning per settlement, for its gross; a voided settlement's is reversed. */
  ghost predicate EarningsKept(ss: seq<Settlement>, ms: seq<Movement>) {
    Answered(ss, ms) && OneEarning(ms) && VoidsReversed(ss, ms)
  }

  ghost predicate Sound(t: Tenant) {
    && RecordsKept(t.records) && SettlementsKept(t.settlements) && ClaimsKept(t.records, t.settlements)
    && WellFormed(t.ledger) && EarningsKept(t.settlements, t.ledger)
  }

  lemma EmptyFarmIsSound(workers: set<Id>, book: Book)
    ensures Sound(Tenant(workers, [], book, [], []))
  {
  }

  /* ---- records ---- */

  lemma RecordsNamed(rs: seq<Record>, a: Record, b: Record)
    requires RecordsKept(rs) && a in rs && b in rs && a.id == b.id
    ensures a == b
  {
    var i, j :| 0 <= i < |rs| && 0 <= j < |rs| && rs[i] == a && rs[j] == b;
  }

  lemma RegisterSound(t: Tenant, d: Draft)
    requires Sound(t)
    ensures Sound(Register(t, d).0)
  {
    hide SettlementsKept, WellFormed, EarningsKept, Worth, WeekPriceOf, NewestFirstOf, PriceOf, RateInForce;
    var (u, a) := Register(t, d);
    if a.Done? {
      var r := a.value;
      assert u.records == [r] + t.records;
      RegisteredRight(t, d);
      assert forall x :: x in u.records ==> x == r || x in t.records;
      assert forall x :: x in t.records ==> x in u.records;
      forall s, i | s in u.settlements && i in s.items && !i.voided ensures Backed(u.records, s, i) {
        assert Backed(t.records, s, i);
      }
    }
  }

  lemma RegisteredRight(t: Tenant, d: Draft)
    ensures var a := Register(t, d).1; a.Done? ==> PricedRight(a.value)
  {
    hide Worth, WeekPriceOf, RateInForce;
  }

  /** Changing one record that no live settlement claims. */
  lemma ReplaceSound(t: Tenant, k: nat, r: Record)
    requires Sound(t) && k < |t.records| && r.id == t.records[k].id && PricedRight(r)
    requires !IsSettled(t.settlements, r.id)
    ensures Sound(t.(records := t.records[k := r]))
  {
    hide SettlementsKept, WellFormed, EarningsKept, PricedRight;
    var rs := t.records[k := r];
    assert forall x :: x in rs ==> x == r || x in t.records;
    forall s, i | s in t.settlements && i in s.items && !i.voided ensures Backed(rs, s, i) {
      var x :| x in t.records && Holds(x, s, i);
      var j :| 0 <= j < |t.records| && t.records[j] == x;
      assert Claims(s, i.payable);
      assert j != k && rs[j] == x;
    }
  }

  lemma CorrectSound(t: Tenant, p: Patch)
    requires Sound(t)
    ensures Sound(Correct(t, p).0)
  {
    hide Sound, Worth, IsSettled;
    var (u, a) := Correct(t, p);
    if a.Done? {
      var k := RecordAt(t.records, p.id).value;
      assert PricedRight(t.records[k]) by { RecordRight(t, k); }
      ReplaceSound(t, k, a.value);
    }
  }

  lemma RecordRight(t: Tenant, k: nat)
    requires Sound(t) && k < |t.records|
    ensures PricedRight(t.records[k])
  {
    hide PricedRight;
    assert t.records[k] in t.records;
  }

  lemma RemoveSound(t: Tenant, id: Id)
    requires Sound(t)
    ensures Sound(Remove(t, id).0)
  {
    hide Sound, Worth, IsSettled;
    var (u, a) := Remove(t, id);
    if a.Done? {
      var k := RecordAt(t.records, id).value;
      RecordRight(t, k);
      ReplaceSound(t, k, a.value);
    }
  }

  /* ---- settling ---- */

  lemma {:induction false} OpenDistinct(ss: seq<Settlement>, rs: seq<Record>, w: Id, from: Day, to: Day)
    requires IdsDistinct(rs)
    ensures IdsDistinct(OpenRecords(ss, rs, w, from, to))
  {
    if rs != [] {
      OpenDistinct(ss, rs[1..], w, from, to);
      var rest := OpenRecords(ss, rs[1..], w, from, to);
      forall j | 0 <= j < |rest| ensures rest[j].id != rs[0].id {
        assert rest[j] in rest;
        var k :| 0 <= k < |rs[1..]| && rs[1..][k] == rest[j];
        assert rs[k + 1] == rest[j];
      }
    }
  }

  ghost predicate InOrder(rs: seq<Record>) { forall i, j :: 0 <= i < j < |rs| ==> Before(rs[i], rs[j]) }

  lemma {:induction false} InsertInOrder(rs: seq<Record>, r: Record)
    requires InOrder(rs) && forall x :: x in rs ==> x.id != r.id
    ensures InOrder(Insert(rs, r))
  {
    if rs != [] {
      var n := |rs| - 1;
      if Before(r, rs[n]) {
        InsertInOrder(rs[..n], r);
        var front := Insert(rs[..n], r);
        forall i | 0 <= i < |front| ensures Before(front[i], rs[n]) {
          assert front[i] in front;
          if front[i] != r { var k :| 0 <= k < n && rs[k] == front[i]; }
        }
      } else {
        assert rs[n] in rs;
      }
    }
  }

  lemma {:induction false} SortInOrder(rs: seq<Record>)
    requires IdsDistinct(rs)
    ensures InOrder(SortByDay(rs))
  {
    if rs != [] {
      var n := |rs| - 1;
      SortInOrder(rs[..n]);
      forall x | x in SortByDay(rs[..n]) ensures x.id != rs[n].id { var k :| 0 <= k < n && rs[k] == x; }
      InsertInOrder(SortByDay(rs[..n]), rs[n]);
    }
  }

  lemma OpenIsInOrder(ss: seq<Settlement>, rs: seq<Record>, w: Id, from: Day, to: Day)
    requires RecordsKept(rs)
    ensures InOrder(OpenInOrder(ss, rs, w, from, to))
  {
    OpenDistinct(ss, rs, w, from, to);
    SortInOrder(OpenRecords(ss, rs, w, from, to));
  }

  lemma InOrderIds(rs: seq<Record>, all: seq<Record>)
    requires InOrder(rs) && RecordsKept(all) && forall r :: r in rs ==> r in all
    ensures IdsDistinct(rs)
  {
    forall i, j | 0 <= i < j < |rs| ensures rs[i].id != rs[j].id {
      assert rs[i] in rs && rs[j] in rs && Before(rs[i], rs[j]);
      if rs[i].id == rs[j].id { RecordsNamed(all, rs[i], rs[j]); assert false; }
    }
  }

  ghost predicate LinesDistinct(ls: seq<Line>) { forall i, j :: 0 <= i < j < |ls| ==> ls[i].payable != ls[j].payable }

  lemma PendingDistinct(t: Tenant, w: Id, from: Day, to: Day)
    requires RecordsKept(t.records)
    ensures LinesDistinct(Pending(t, w, from, to))
  {
    OpenIsInOrder(t.settlements, t.records, w, from, to);
    InOrderIds(OpenInOrder(t.settlements, t.records, w, from, to), t.records);
  }

  lemma {:induction false} NamedDistinct(ls: seq<Line>, ids: seq<Id>)
    requires LinesDistinct(ls)
    ensures LinesDistinct(Named(ls, ids))
  {
    if ls != [] {
      NamedDistinct(ls[1..], ids);
      var rest := Named(ls[1..], ids);
      forall j | 0 <= j < |rest| ensures rest[j].payable != ls[0].payable {
        assert rest[j] in rest;
        var k :| 0 <= k < |ls[1..]| && ls[1..][k] == rest[j];
        assert ls[k + 1] == rest[j];
      }
    }
  }

  /** A pending line is an open record, priced now. */
  lemma PendingLine(t: Tenant, w: Id, from: Day, to: Day, l: Line) returns (r: Record)
    requires l in Pending(t, w, from, to)
    ensures r in t.records && IsOpen(t.settlements, r, w, from, to) && l == LineOf(t.book, r)
  {
    var open := OpenInOrder(t.settlements, t.records, w, from, to);
    var k :| 0 <= k < |open| && Priced(t.book, open)[k] == l;
    r := open[k];
    assert r in open;
  }

  lemma {:induction false} ItemsAddUp(ls: seq<Line>)
    ensures GrossOf(ItemsOf(ls)) == Gross(ls)
  {
    if ls != [] {
      var n := |ls| - 1;
      ItemsAddUp(ls[..n]);
      assert ItemsOf(ls)[..n] == ItemsOf(ls[..n]);
    }
  }

  lemma ChosenWhole(t: Tenant, q: Request)
    requires RecordsKept(t.records)
    ensures var all := Pending(t, q.worker, q.from, q.to);
            LinesDistinct(Chosen(all, q.wanted)) && forall l :: l in Chosen(all, q.wanted) ==> l in all
  {
    PendingDistinct(t, q.worker, q.from, q.to);
    if q.wanted != [] { NamedDistinct(Pending(t, q.worker, q.from, q.to), q.wanted); }
  }

  /** The settlement just built: what it claims is open, whole and the worker's. */
  lemma NewSettlementKept(t: Tenant, q: Request)
    requires Sound(t) && Refusal(t, q).None?
    ensures var s := NewSettlement(q, Chosen(Pending(t, q.worker, q.from, q.to), q.wanted));
            && SettlementKept(s) && s.gross > 0 && !s.voided && s.id == q.id && s.worker == q.worker
            && (forall i :: i in s.items ==> Backed(t.records, s, i) && !IsSettled(t.settlements, i.payable))
            && Some(s.gross) == q.expected
  {
    hide RecordsKept, OneClaim, SettlementsKept, WellFormed, EarningsKept, ClaimsKept, LineOf, Pending, Chosen, Gross,
         GrossOf, Worth;
    var chosen := Chosen(Pending(t, q.worker, q.from, q.to), q.wanted);
    var s := NewSettlement(q, chosen);
    ChosenWhole(t, q);
    ItemsAddUp(chosen);
    forall i | i in s.items
      ensures !i.voided && Backed(t.records, s, i) && !IsSettled(t.settlements, i.payable)
      ensures i.amount == Worth(i.quantity, i.rate)
    {
      var k :| 0 <= k < |s.items| && s.items[k] == i;
      var r := PendingLine(t, q.worker, q.from, q.to, chosen[k]);
      RecordPriced(t.records, r);
      LinePriced(t.book, r);
      assert Holds(r, s, i);
    }
  }

  lemma RecordPriced(rs: seq<Record>, r: Record)
    requires RecordsKept(rs) && r in rs
    ensures PricedRight(r)
  {
  }

  /** Every pending line is its quantity at its rate, whichever way it is priced. */
  lemma LinePriced(book: Book, r: Record)
    requires PricedRight(r)
    ensures var l := LineOf(book, r); l.amount == Worth(l.quantity, l.rate)
  {
    hide Worth, KiloPriceOf;
  }

  lemma AppendSettlement(ss: seq<Settlement>, s: Settlement)
    requires SettlementsKept(ss) && SettlementKept(s) && (forall x :: x in ss ==> x.id != s.id)
    requires forall i :: i in s.items ==> !IsSettled(ss, i.payable)
    ensures SettlementsKept(ss + [s])
  {
    hide SettlementKept;
    var all := ss + [s];
    forall a, b, p | 0 <= a < b < |all| && Claims(all[a], p) ensures !Claims(all[b], p) {
      if b == |ss| { assert ss[a] in ss && IsSettled(ss, p); }
    }
  }

  lemma AppendEarning(ss: seq<Settlement>, ms: seq<Movement>, s: Settlement, m: Movement)
    requires EarningsKept(ss, ms) && (forall x :: x in ss ==> x.id != s.id)
    requires Pays(m, s) && !s.voided && m.reverses.None?
    ensures EarningsKept(ss + [s], ms + [m])
  {
    hide Pays, Answered, OneEarning, VoidsReversed;
    AppendAnswered(ss, ms, s, m);
    NoEarningYet(ss, ms, s.id);
    AppendOne(ms, m, s);
    AppendVoids(ss, ms, s, m);
  }

  lemma NoEarningYet(ss: seq<Settlement>, ms: seq<Movement>, id: Id)
    requires Answered(ss, ms) && forall x :: x in ss ==> x.id != id
    ensures forall n :: n in ms && n.kind.Devengo? ==> n.settlement != Some(id)
  {
    forall n | n in ms && n.kind.Devengo? ensures n.settlement != Some(id) {
      var x :| x in ss && Pays(n, x);
    }
  }

  lemma AppendOne(ms: seq<Movement>, m: Movement, s: Settlement)
    requires OneEarning(ms) && Pays(m, s) && forall n :: n in ms && n.kind.Devengo? ==> n.settlement != Some(s.id)
    ensures OneEarning(ms + [m])
  {
  }

  lemma AppendAnswered(ss: seq<Settlement>, ms: seq<Movement>, s: Settlement, m: Movement)
    requires Answered(ss, ms) && Pays(m, s)
    ensures Answered(ss + [s], ms + [m])
  {
    hide Pays;
    var us, ns := ss + [s], ms + [m];
    forall n | n in ns && n.kind.Devengo? ensures HasSettlement(us, n) {
      var x :| Pays(n, x) && (n in ms ==> x in ss) && (n == m ==> x in us);
    }
    forall x | x in us ensures HasEarning(ns, x) {
      if x in ss { var n :| n in ms && Pays(n, x); assert n in ns; } else { assert m in ns; }
    }
  }

  lemma AppendVoids(ss: seq<Settlement>, ms: seq<Movement>, s: Settlement, m: Movement)
    requires VoidsReversed(ss, ms) && !s.voided
    requires forall n :: n in ms && n.kind.Devengo? ==> n.settlement != Some(s.id)
    requires Pays(m, s) && forall x :: x in ss ==> x.id != s.id
    ensures VoidsReversed(ss + [s], ms + [m])
  {
    forall x, n | x in ss + [s] && n in ms + [m] && x.voided && Pays(n, x) ensures Reversed(ms + [m], n.id) {
      assert x in ss && n in ms;
      var r :| r in ms && r.reverses == Some(n.id);
      assert r in ms + [m];
    }
  }

  lemma SettleSound(t: Tenant, q: Request, today: Day, minted: Id)
    requires Sound(t) && !Used(t.ledger, minted)
    ensures Sound(Settle(t, q, today, minted).0)
  {
    hide RecordsKept, SettlementsKept, WellFormed, EarningsKept, SettlementKept, NewSettlement, Refusal, Pending,
         Chosen, IsSettled;
    var (u, a) := Settle(t, q, today, minted);
    if a.Done? {
      var s := a.value;
      NewSettlementKept(t, q);
      AppendSettlement(t.settlements, s);
      AppendEarning(t.settlements, t.ledger, s, EarningOf(s, today, minted));
      WellFormedSnoc(t.ledger, EarningOf(s, today, minted));
      forall x, i | x in u.settlements && i in x.items && !i.voided ensures Backed(u.records, x, i) {
        if x in t.settlements { assert Backed(t.records, x, i); }
      }
    }
  }

  /* ---- the ledger's doors ---- */

  lemma AppendOther(ss: seq<Settlement>, ms: seq<Movement>, m: Movement)
    requires EarningsKept(ss, ms) && !m.kind.Devengo?
    ensures EarningsKept(ss, ms + [m])
  {
    hide Answered, OneEarning, VoidsReversed;
    OtherAnswered(ss, ms, m);
    OtherOne(ms, m);
    OtherVoids(ss, ms, m);
  }

  lemma OtherAnswered(ss: seq<Settlement>, ms: seq<Movement>, m: Movement)
    requires Answered(ss, ms) && !m.kind.Devengo?
    ensures Answered(ss, ms + [m])
  {
    hide Pays, HasSettlement;
    forall x | x in ss ensures HasEarning(ms + [m], x) {
      var n :| n in ms && Pays(n, x);
      assert n in ms + [m];
    }
  }

  lemma OtherOne(ms: seq<Movement>, m: Movement)
    requires OneEarning(ms) && !m.kind.Devengo?
    ensures OneEarning(ms + [m])
  {
  }

  lemma ReversedStill(ms: seq<Movement>, m: Movement, id: Id)
    requires Reversed(ms, id)
    ensures Reversed(ms + [m], id)
  {
    var r :| r in ms && r.reverses == Some(id);
    assert r in ms + [m];
  }

  lemma OtherVoids(ss: seq<Settlement>, ms: seq<Movement>, m: Movement)
    requires VoidsReversed(ss, ms) && !m.kind.Devengo?
    ensures VoidsReversed(ss, ms + [m])
  {
    hide Reversed;
    forall x, n | x in ss && n in ms + [m] && x.voided && Pays(n, x) ensures Reversed(ms + [m], n.id) {
      assert n in ms;
      ReversedStill(ms, m, n.id);
    }
  }

  lemma LedgerOnly(t: Tenant, m: Movement)
    requires Sound(t) && MayAppend(t.ledger, m) && !m.kind.Devengo?
    ensures Sound(t.(ledger := t.ledger + [m]))
  {
    hide MayAppend, EarningsKept, WellFormed, SettlementsKept, ClaimsKept, RecordsKept;
    AppendOther(t.settlements, t.ledger, m);
    WellFormedSnoc(t.ledger, m);
  }

  predicate Served(kind: Kind) { kind.Pago? || kind.Anticipo? || kind.Deduccion? || kind.Ajuste? }

  lemma PaySound(t: Tenant, p: Payment)
    requires Sound(t) && Served(p.kind)
    ensures Sound(Pay(t, p).0)
  {
    hide Sound, BalanceOf;
    var (u, a) := Pay(t, p);
    if a.Done? { LedgerOnly(t, a.value); }
  }

  lemma ReversalMayAppend(ms: seq<Movement>, m: Movement, day: Day, minted: Id)
    requires WellFormed(ms) && m in ms && !m.kind.Reverso? && !Reversed(ms, m.id) && !Used(ms, minted)
    ensures MayAppend(ms, ReversalOf(m, day, minted))
  {
    RowsValid(ms);
    assert Cancels(ReversalOf(m, day, minted), m);
  }

  lemma ReverseSound(t: Tenant, id: Id, today: Day, minted: Id)
    requires Sound(t) && !Used(t.ledger, minted)
    ensures Sound(Reverse(t, id, today, minted).0)
  {
    var (u, a) := Reverse(t, id, today, minted);
    if a.Done? {
      ReversalMayAppend(t.ledger, Find(t.ledger, id).value, today, minted);
      hide *;
      LedgerOnly(t, a.value);
    }
  }

  /* ---- voiding ---- */

  lemma {:induction false} UnreversedOne(all: seq<Movement>, ms: seq<Movement>, id: Id)
    requires OneEarning(ms) && forall i, j :: 0 <= i < j < |ms| ==> ms[i].id != ms[j].id
    ensures |Unreversed(all, ms, id)| <= 1
  {
    if ms != [] {
      var front, m := ms[..|ms| - 1], ms[|ms| - 1];
      assert ms == front + [m];
      UnreversedOne(all, front, id);
      forall x | x in front ensures !SameEarning(x, m) {
        var i :| 0 <= i < |front| && front[i] == x;
        assert ms[i].id != m.id && x in ms && m in ms;
      }
      var us := Unreversed(all, front, id);
      if us != [] { assert us[0] in us; }
    }
  }

  lemma {:induction false} VoidAddsUp(items: seq<Item>)
    ensures GrossOf(VoidItems(items)) == GrossOf(items)
  {
    if items != [] {
      var n := |items| - 1;
      VoidAddsUp(items[..n]);
      assert VoidItems(items)[..n] == VoidItems(items[..n]);
    }
  }

  lemma VoidedKept(s: Settlement)
    requires SettlementKept(s)
    ensures SettlementKept(Voided(s)) && forall p :: !Claims(Voided(s), p)
  {
    VoidAddsUp(s.items);
  }

  lemma ReplaceSettlement(ss: seq<Settlement>, k: nat, v: Settlement)
    requires SettlementsKept(ss) && k < |ss| && v.id == ss[k].id && SettlementKept(v) && forall p :: !Claims(v, p)
    ensures SettlementsKept(ss[k := v])
  {
    hide SettlementKept, Claims;
    var us := ss[k := v];
    forall x | x in us ensures SettlementKept(x) { assert x == v || x in ss; }
    forall a, b, p | 0 <= a < b < |us| && Claims(us[a], p) ensures !Claims(us[b], p) {
      assert a != k;
      if b != k { assert us[a] == ss[a] && us[b] == ss[b]; }
    }
  }

  lemma ReplaceClaims(rs: seq<Record>, ss: seq<Settlement>, k: nat, v: Settlement)
    requires ClaimsKept(rs, ss) && k < |ss| && forall i :: i in v.items ==> i.voided
    ensures ClaimsKept(rs, ss[k := v])
  {
    hide Backed;
    forall x, i | x in ss[k := v] && i in x.items && !i.voided ensures Backed(rs, x, i) { assert x in ss; }
  }

  predicate SameDebt(v: Settlement, s: Settlement) { v.id == s.id && v.worker == s.worker && v.gross == s.gross }

  lemma PaysSame(m: Movement, s: Settlement, v: Settlement)
    requires SameDebt(v, s)
    ensures Pays(m, v) <==> Pays(m, s)
  {
  }

  lemma ReplaceAnswered(ss: seq<Settlement>, ms: seq<Movement>, k: nat, v: Settlement)
    requires Answered(ss, ms) && k < |ss| && SameDebt(v, ss[k])
    ensures Answered(ss[k := v], ms)
  {
    var us := ss[k := v];
    assert forall j :: 0 <= j < |ss| ==> SameDebt(us[j], ss[j]);
    hide Pays, SameDebt;
    forall m | m in ms && m.kind.Devengo? ensures HasSettlement(us, m) {
      assert HasSettlement(ss, m);
      var x :| x in ss && Pays(m, x);
      var j :| 0 <= j < |ss| && ss[j] == x;
      PaysSame(m, x, us[j]);
      assert us[j] in us;
    }
    forall x | x in us ensures HasEarning(ms, x) {
      var j :| 0 <= j < |us| && us[j] == x;
      assert ss[j] in ss && HasEarning(ms, ss[j]);
      var m :| m in ms && Pays(m, ss[j]);
      PaysSame(m, ss[j], x);
    }
  }

  lemma ReplaceVoids(ss: seq<Settlement>, ms: seq<Movement>, k: nat, v: Settlement)
    requires VoidsReversed(ss, ms) && k < |ss|
    requires forall m :: m in ms && Pays(m, v) ==> Reversed(ms, m.id)
    ensures VoidsReversed(ss[k := v], ms)
  {
    hide Pays, Reversed;
    forall x, m | x in ss[k := v] && m in ms && x.voided && Pays(m, x) ensures Reversed(ms, m.id) {
      if x != v { assert x in ss; }
    }
  }

  /** What voiding appends: the reversal of the settlement's one earning, unless somebody
      had already reversed it. */
  lemma VoidLedger(t: Tenant, k: nat, today: Day, minted: seq<Id>)
    requires Sound(t) && k < |t.settlements|
    requires |minted| == |Unreversed(t.ledger, t.ledger, t.settlements[k].id)|
    requires forall id :: id in minted ==> !Used(t.ledger, id)
    ensures var s := t.settlements[k];
            var open := Unreversed(t.ledger, t.ledger, s.id);
            var ms := t.ledger + ReversalsOf(open, today, minted);
            && |open| <= 1
            && (open != [] ==> Pays(open[0], s) && ms == t.ledger + [ReversalOf(open[0], today, minted[0])])
            && (open == [] ==> ms == t.ledger)
            && WellFormed(ms) && EarningsKept(t.settlements, ms)
            && forall m :: m in ms && Pays(m, s) ==> Reversed(ms, m.id)
  {
    hide ClaimsKept, SettlementsKept, RecordsKept, WellFormed, Answered, OneEarning, VoidsReversed, Pays, Used,
         Reversed;
    var s := t.settlements[k];
    var open := Unreversed(t.ledger, t.ledger, s.id);
    OpenEarnings(t, k);
    if open != [] {
      var r := ReversalOf(open[0], today, minted[0]);
      assert open[0] in open && minted[0] in minted;
      ReversalMayAppend(t.ledger, open[0], today, minted[0]);
      WellFormedSnoc(t.ledger, r);
      AppendOther(t.settlements, t.ledger, r);
      AllReversed(t.ledger, s, open[0], r);
      assert ReversalsOf(open, today, minted) == [r];
    } else {
      assert t.ledger + ReversalsOf(open, today, minted) == t.ledger;
    }
  }

  lemma OpenEarnings(t: Tenant, k: nat)
    requires Sound(t) && k < |t.settlements|
    ensures var s := t.settlements[k];
            var open := Unreversed(t.ledger, t.ledger, s.id);
            && |open| <= 1 && (open != [] ==> Pays(open[0], s))
            && (open == [] ==> forall m :: m in t.ledger && Pays(m, s) ==> Reversed(t.ledger, m.id))
  {
    hide ClaimsKept, SettlementsKept, RecordsKept, Answered, VoidsReversed, WellFormed;
    var s := t.settlements[k];
    var open := Unreversed(t.ledger, t.ledger, s.id);
    RowsValid(t.ledger);
    UnreversedOne(t.ledger, t.ledger, s.id);
    if open != [] {
      assert open[0] in open;
      EarningOfSettlement(t, k, open[0]);
    } else {
      forall m | m in t.ledger && Pays(m, s) ensures Reversed(t.ledger, m.id) { assert m !in open; }
    }
  }

  lemma AllReversed(ms: seq<Movement>, s: Settlement, m: Movement, r: Movement)
    requires OneEarning(ms) && m in ms && Pays(m, s) && r.kind.Reverso? && r.reverses == Some(m.id)
    ensures forall n :: n in ms + [r] && Pays(n, s) ==> Reversed(ms + [r], n.id)
  {
    forall n | n in ms + [r] && Pays(n, s) ensures Reversed(ms + [r], n.id) {
      assert n in ms && SameEarning(n, m);
      assert r in ms + [r];
    }
  }

  lemma EarningOfSettlement(t: Tenant, k: nat, m: Movement)
    requires Sound(t) && k < |t.settlements| && m in t.ledger && m.kind.Devengo?
    requires m.settlement == Some(t.settlements[k].id)
    ensures Pays(m, t.settlements[k])
  {
    hide ClaimsKept, RecordsKept, WellFormed, SettlementsKept, OneEarning, VoidsReversed;
    var x :| x in t.settlements && Pays(m, x);
    SettlementNamed(t.settlements, k, x);
  }

  lemma SettlementNamed(ss: seq<Settlement>, k: nat, x: Settlement)
    requires SettlementsKept(ss) && k < |ss| && x in ss && x.id == ss[k].id
    ensures x == ss[k]
  {
    hide SettlementKept, OneClaim;
    var j :| 0 <= j < |ss| && ss[j] == x;
  }

  lemma VoidSound(t: Tenant, id: Id, today: Day, minted: seq<Id>)
    requires Sound(t) && |minted| == |Unreversed(t.ledger, t.ledger, id)|
    requires forall m :: m in minted ==> !Used(t.ledger, m)
    ensures Sound(Void(t, id, today, minted).0)
  {
    hide WellFormed, Answered, OneEarning, SettlementsKept, ClaimsKept, RecordsKept, SettlementKept, Unreversed, Claims;
    var (u, a) := Void(t, id, today, minted);
    if a.Done? {
      var k := IndexOf(t.settlements, id).value;
      VoidLedger(t, k, today, minted);
      SettlementAt(t.settlements, k);
      VoidedKept(t.settlements[k]);
      ReplaceSettlement(t.settlements, k, a.value);
      ReplaceClaims(t.records, t.settlements, k, a.value);
      ReplaceAnswered(t.settlements, u.ledger, k, a.value);
      ReplaceVoids(t.settlements, u.ledger, k, a.value);
    }
  }

  lemma SettlementAt(ss: seq<Settlement>, k: nat)
    requires SettlementsKept(ss) && k < |ss|
    ensures SettlementKept(ss[k])
  {
    assert ss[k] in ss;
  }
}
