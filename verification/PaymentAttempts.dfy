/** What one attempt at a payment comes to, by what is known before it, and that the protocol can
    always carry it through. */
module PaymentAttempts {
  import opened Text
  import opened PriceRules
  import opened Ledger
  import opened Settlement
  import opened SettlementRuns
  import opened Payroll
  import opened Answers
  import opened PaymentProtocol
  import Amount

  function GrossNow(t: Tenant, a: Approval, at: Attempt): (cents: Cents) {
    Gross(Chosen(Pending(t, a.worker, at.from, at.to), a.payables))
  }

  /** The work is settled already under the approval's id, or can be, for the approved figure. */
  ghost predicate Settleable(t: Tenant, a: Approval, at: Attempt) {
    || a.payables == []
    || (at.from <= at.to
        && (KnownSettlement(t, a.settlement)
            || (SomethingAsked(t, SettleRequest(a, at)) && a.gross == GrossNow(t, a, at) && a.gross > 0)))
  }

  /** What is owed when the payment is posted: the gross joins in if this attempt settles it. */
  ghost function OwedThen(t: Tenant, a: Approval): (cents: Cents) {
    BalanceOf(t.ledger, a.worker).balance
    + if a.payables != [] && !KnownSettlement(t, a.settlement) then a.gross else 0
  }

  /** The first half goes through exactly when the work is settled or can be, and leaves the
      worker owed accordingly. */
  lemma FirstHalfExactly(t: Tenant, a: Approval, at: Attempt)
    requires Sound(t)
    ensures var (u, why) := FirstHalf(t, a, at);
            && (why.None? <==> Settleable(t, a, at))
            && (why.None? ==> BalanceOf(u.ledger, a.worker).balance == OwedThen(t, a))
            && (why.Some? ==> u == t) && u.workers == t.workers
  {
    hide Sound, Pending, Gross, BalanceOf, KnownSettlement, SomethingAsked, Settle;
    if a.payables != [] {
      var q := SettleRequest(a, at);
      SettlesExactly(t, q, at.today, at.minted);
      SettleKeepsWorkers(t, q, at.today, at.minted);
      if Settle(t, q, at.today, at.minted).1.Done? { SettledOwed(t, a, at); }
    }
  }

  lemma SettledOwed(t: Tenant, a: Approval, at: Attempt)
    requires Sound(t) && Settle(t, SettleRequest(a, at), at.today, at.minted).1.Done?
    ensures var u := Settle(t, SettleRequest(a, at), at.today, at.minted).0;
            BalanceOf(u.ledger, a.worker).balance == BalanceOf(t.ledger, a.worker).balance + a.gross
  {
    hide Sound, Pending, Sum, Settle;
    var q := SettleRequest(a, at);
    var (u, s) := Settle(t, q, at.today, at.minted);
    SettleWritesExactly(t, q, at.today, at.minted);
    assert s.value.gross == a.gross by { SettleTakesExactly(t, q, at.today, at.minted, a.worker, at.from, at.to); }
    PostsExactly(t.ledger, Movement(at.minted, q.worker, Devengo, s.value.gross, at.today, Some(q.id), None));
  }

  lemma SettleRefusals(t: Tenant, q: Request, today: Day, minted: Id)
    requires Settle(t, q, today, minted).1.Refused?
    ensures var why := Settle(t, q, today, minted).1.why; why.BadRequest? || why.NothingToSettle? || why.GrossChanged?
  {
    hide Pending, Gross, Chosen, DetailsOf;
  }

  /** The first half leaves the rows under the payment's id, and the farm, as they should be. */
  lemma FirstHalfKeeps(t: Tenant, a: Approval, at: Attempt)
    requires Sound(t) && !Used(t.ledger, at.minted) && at.minted != a.payment
    ensures var (u, why) := FirstHalf(t, a, at);
            && Sound(u) && (forall m: Movement :: m.id == a.payment ==> (m in u.ledger <==> m in t.ledger))
            && (why.Some? ==> why.value.BadRequest? || why.value.NothingToSettle? || why.value.GrossChanged?)
  {
    hide Sound, Settle;
    if a.payables != [] {
      var q := SettleRequest(a, at);
      SettleSound(t, q, at.today, at.minted);
      SettleWrites(t, q, at.today, at.minted);
      if Settle(t, q, at.today, at.minted).1.Refused? { SettleRefusals(t, q, at.today, at.minted); }
    }
  }

  /** The row of an earlier attempt at the same payment. */
  ghost predicate PaidBefore(t: Tenant, a: Approval) {
    exists m :: m in t.ledger && m.id == a.payment && m.kind.Pago? && m.worker == a.worker
  }

  /** Nothing but the balance can stand in its way. */
  ghost predicate Ready(t: Tenant, a: Approval, at: Attempt) {
    Settleable(t, a, at) && a.worker in t.workers && a.cents != 0
  }

  /** What an attempt comes to when its requests all arrive: paid exactly when the work is
      settled or can be, the worker is the farm's, the amount is something, its id is new and no
      more than what is then owed; replayed exactly when all of that holds but the id, which a
      payment to the same worker has. */
  lemma AttemptsExactly(t: Tenant, a: Approval, at: Attempt)
    requires Sound(t) && !Used(t.ledger, at.minted) && at.minted != a.payment
    ensures var (u, answer) := Attempted(t, a, at);
            var cents: int := Amount.Abs(a.cents);
            var open := Ready(t, a, at) && !Used(t.ledger, a.payment);
            && (answer.Done? <==> open && cents <= OwedThen(t, a))
            && (answer == Refused(ExceedsBalance(OwedThen(t, a))) <==> open && cents > OwedThen(t, a))
            && (answer.Replayed? <==> Ready(t, a, at) && PaidBefore(t, a))
            && (answer == Refused(KeyReused) <==> Ready(t, a, at) && Used(t.ledger, a.payment) && !PaidBefore(t, a))
  {
    hide Sound, BalanceOf, Settleable, OwedThen, FirstHalf, Pay;
    FirstHalfExactly(t, a, at);
    FirstHalfKeeps(t, a, at);
    var (u, why) := FirstHalf(t, a, at);
    var p := PayRequest(a, at.today);
    assert WellFormed(u.ledger) by { SoundIsWell(u); }
    PaysExactly(u, p);
    SameRows(t, u, a);
    assert WellFormed(t.ledger) by { SoundIsWell(t); }
    OneRow(t, p);
  }

  lemma SoundIsWell(t: Tenant)
    requires Sound(t)
    ensures WellFormed(t.ledger)
  {
  }

  lemma OneRow(t: Tenant, p: Payment)
    requires WellFormed(t.ledger)
    ensures !(RowFor(t, p, true) && RowFor(t, p, false))
    ensures Used(t.ledger, p.id) <==> RowFor(t, p, true) || RowFor(t, p, false)
  {
    RowsValid(t.ledger);
    hide WellFormed;
    forall m, n | m in t.ledger && n in t.ledger && m.id == n.id ensures m == n {
      var i, j :| 0 <= i < |t.ledger| && 0 <= j < |t.ledger| && t.ledger[i] == m && t.ledger[j] == n;
    }
    forall m | m in t.ledger && m.id == p.id ensures RowFor(t, p, m.kind == p.kind && m.worker == p.worker) { }
  }

  lemma SameRows(t: Tenant, u: Tenant, a: Approval)
    requires forall m: Movement :: m.id == a.payment ==> (m in u.ledger <==> m in t.ledger)
    ensures Used(u.ledger, a.payment) <==> Used(t.ledger, a.payment)
    ensures forall today :: RowFor(u, PayRequest(a, today), true) <==> PaidBefore(t, a)
    ensures forall today, same :: RowFor(u, PayRequest(a, today), same) <==> RowFor(t, PayRequest(a, today), same)
  {
  }

  /** And what a paid one writes, beside the settlement: one payment of that amount, leaving the
      balance lower by it. */
  lemma AttemptWrites(t: Tenant, a: Approval, at: Attempt)
    requires Sound(t) && Attempted(t, a, at).1.Done?
    ensures var (u, answer) := Attempted(t, a, at);
            var first := FirstHalf(t, a, at).0;
            var cents: int := Amount.Abs(a.cents);
            && answer.value == Movement(a.payment, a.worker, Pago, -cents, at.today, None, None)
            && u == first.(ledger := first.ledger + [answer.value])
            && BalanceOf(u.ledger, a.worker).balance == OwedThen(t, a) - cents
  {
    hide Sound, BalanceOf, Settleable, OwedThen, FirstHalf, Pay;
    FirstHalfExactly(t, a, at);
    PayWritesExactly(FirstHalf(t, a, at).0, PayRequest(a, at.today));
  }

  /* ---- what the caller is told ---- */

  /** A receipt comes back exactly when every answer was heard and the payment stands, and then
      it shows what was owed once the work was settled, and what is owed after it. */
  lemma OutcomeExactly(t: Tenant, a: Approval, at: Attempt, heard: Heard)
    requires Sound(t)
    ensures var o := OutcomeOf(t, a, at, heard);
            var paid := Attempted(t, a, at).1;
            var all := (a.payables == [] || heard.settle) && heard.before && heard.pay && heard.after;
            && (o.Paid? <==> all && !paid.Refused?)
            && (all && paid.Refused? ==> o == Failed(paid.why))
            && (o.Paid? ==> o.receipt.row == paid.value && o.receipt.before == OwedThen(t, a))
            && (o.Paid? && paid.Done? ==> o.receipt.after == OwedThen(t, a) - Amount.Abs(a.cents))
            && (o.Paid? && paid.Replayed? ==> o.receipt.after == OwedThen(t, a))
            && (a.payables != [] && !heard.settle ==> o == NoAnswer)
  {
    hide Sound, BalanceOf, Settleable, OwedThen, FirstHalf, Pay;
    FirstHalfExactly(t, a, at);
    var (u, paid) := Attempted(t, a, at);
    if paid.Done? { AttemptWrites(t, a, at); }
    if paid.Replayed? { ReplayWritesNothing(FirstHalf(t, a, at).0, PayRequest(a, at.today)); }
  }

  lemma ReplayWritesNothing(t: Tenant, p: Payment)
    requires Served(p.kind) && Pay(t, p).1.Replayed?
    ensures Pay(t, p).0 == t
  {
    hide BalanceOf, Find;
  }

  /* ---- the protocol gets there ---- */

  /** An approval of settled or settleable work is carried through by four events, and then the
      farm is what one attempt leaves: nothing in the protocol stands in the way. */
  lemma ProtocolReaches(known: set<Approval>, t: Tenant, a: Approval, at: Attempt)
    requires a in known && a.payables != [] && FirstHalf(t, a, at).1.None? && a.worker in t.workers
    requires !Used(t.ledger, at.minted) && forall b :: b in known ==> at.minted != b.payment
    ensures var w := World(t, {}, {}, {});
            var es := [Send(a), ArriveSettle(a, at, true), SendPayment(a), ArrivePayment(a, at.today)];
            EnabledRun(known, w, es) && RunWorld(known, w, es).farm == Attempted(t, a, at).0
  {
    hide Settle, Pay;
    var w := World(t, {}, {}, {});
    var e0, e1, e2, e3 := Send(a), ArriveSettle(a, at, true), SendPayment(a), ArrivePayment(a, at.today);
    SettleKeepsWorkers(t, SettleRequest(a, at), at.today, at.minted);
    var w1 := Next(known, w, e0);
    assert a in w1.settling;
    var w2 := Next(known, w1, e1);
    assert a in w2.settled;
    var w3 := Next(known, w2, e2);
    assert a in w3.paying;
    var w4 := Next(known, w3, e3);
    assert w4.farm == Attempted(t, a, at).0;
    hide Enabled, Next;
    assert EnabledRun(known, w4, []) && RunWorld(known, w4, []) == w4;
    assert [e3][1..] == [] && [e2, e3][1..] == [e3] && [e1, e2, e3][1..] == [e2, e3];
    assert [e0, e1, e2, e3][1..] == [e1, e2, e3];
    assert EnabledRun(known, w3, [e3]) && RunWorld(known, w3, [e3]) == w4;
    assert EnabledRun(known, w2, [e2, e3]) && RunWorld(known, w2, [e2, e3]) == w4;
    assert EnabledRun(known, w1, [e1, e2, e3]) && RunWorld(known, w1, [e1, e2, e3]) == w4;
  }

  ghost predicate NewToAll(known: set<Approval>, id: Id) { forall b :: b in known ==> id != b.payment }

  /** What left a device may arrive any number of times, its answer heard or not, and anything else
      may happen on the farm that uses none of the ids minted for the approvals. */
  lemma RequestsRepeat(known: set<Approval>, w: World, a: Approval, at: Attempt, answered: bool, s: Step)
    ensures a in known && a.payables != [] ==> Enabled(known, w, Send(a)) && a in Next(known, w, Send(a)).settling
    ensures a in w.settling && !Used(w.farm.ledger, at.minted) && NewToAll(known, at.minted) ==>
              && Enabled(known, w, ArriveSettle(a, at, answered))
              && a in Next(known, w, ArriveSettle(a, at, answered)).settling
    ensures a in w.paying ==>
              Enabled(known, w, ArrivePayment(a, at.today)) && a in Next(known, w, ArrivePayment(a, at.today)).paying
    ensures Proper(w.farm, s) && Foreign(known, s) ==>
              Enabled(known, w, Elsewhere(s)) && Next(known, w, Elsewhere(s)) == w.(farm := Apply(w.farm, s))
  {
    hide Settle, Pay, Apply;
  }
}
