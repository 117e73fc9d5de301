/** The append-only ledger: a sign per kind, a reversal instead of an edit, and every total
    derived from the rows. */
module Ledger {
  import opened Text
  import opened PriceRules
  import Amount

  datatype Kind = Devengo | Pago | Anticipo | Deduccion | Ajuste | Reverso

  datatype Sign = Plus | Minus | Free

  function SignOf(kind: Kind): (s: Sign) {
    match kind
    case Devengo => Plus
    case Pago | Anticipo | Deduccion => Minus
    case Ajuste | Reverso => Free
  }

  /** Callers pass magnitudes; the sign belongs to the kind. */
  function SignedAmount(kind: Kind, magnitude: real): (amount: Cents) {
    var n := Amount.MathRound(magnitude);
    match SignOf(kind)
    case Free => n
    case Plus => Amount.Abs(n)
    case Minus => -(Amount.Abs(n) as int)
  }

  predicate IsValidAmount(kind: Kind, amount: Cents) {
    && amount != 0
    && (SignOf(kind).Plus? ==> amount > 0)
    && (SignOf(kind).Minus? ==> amount < 0)
  }

  /** The data layer never stores a wrong sign; it can only be handed a magnitude that
      rounds to nothing. */
  lemma SignedAmountIsValid(kind: Kind, magnitude: real)
    ensures IsValidAmount(kind, SignedAmount(kind, magnitude)) <==> Amount.MathRound(magnitude) != 0
  {
  }

  /** The table, kind by kind: what is earned comes in, what is paid, advanced or taken off goes
      out, and a correction or a reversal says itself which way it goes. */
  lemma SignedAmountExactly(kind: Kind, magnitude: real)
    ensures var n, amount := Amount.MathRound(magnitude), SignedAmount(kind, magnitude);
            amount == match kind
                      case Devengo => if n < 0 then -n else n
                      case Pago => if n < 0 then n else -n
                      case Anticipo => if n < 0 then n else -n
                      case Deduccion => if n < 0 then n else -n
                      case Ajuste => n
                      case Reverso => n
    ensures forall amount: Cents :: IsValidAmount(kind, amount) <==>
              amount != 0 && (kind.Devengo? ==> amount > 0)
              && (kind.Pago? || kind.Anticipo? || kind.Deduccion? ==> amount < 0)
  {
  }

  /** One row. Only a reversal names the row it cancels. */
  datatype Movement = Movement(
    id: Id,
    worker: Id,
    kind: Kind,
    amount: Cents,
    day: Day,
    settlement: Option<Id>,
    reverses: Option<Id>)

  /* ---- derived totals ---- */

  function Sum(ms: seq<Movement>, pick: Movement -> bool): (total: Cents) {
    if ms == [] then 0
    else Sum(ms[..|ms| - 1], pick) + if pick(ms[|ms| - 1]) then ms[|ms| - 1].amount else 0
  }

  function Of(w: Id): Movement -> bool { (m: Movement) => m.worker == w }

  function Earning(w: Id): Movement -> bool {
    (m: Movement) => m.worker == w && (m.kind.Devengo? || (m.kind.Reverso? && m.amount < 0))
  }

  function Paying(w: Id): Movement -> bool {
    (m: Movement) => m.worker == w && (m.kind.Pago? || m.kind.Anticipo? || (m.kind.Reverso? && m.amount > 0))
  }

  function Deducting(w: Id): Movement -> bool { (m: Movement) => m.worker == w && m.kind.Deduccion? }

  function Adjusting(w: Id): Movement -> bool { (m: Movement) => m.worker == w && m.kind.Ajuste? }

  datatype Balance = Balance(earned: Cents, paid: Cents, deducted: Cents, balance: Cents)

  function BalanceOf(ms: seq<Movement>, w: Id): (b: Balance) {
    Balance(Sum(ms, Earning(w)), -Sum(ms, Paying(w)), -Sum(ms, Deducting(w)), Sum(ms, Of(w)))
  }

  lemma {:induction false} SumConcat(a: seq<Movement>, b: seq<Movement>, pick: Movement -> bool)
    ensures Sum(a + b, pick) == Sum(a, pick) + Sum(b, pick)
  {
    if b == [] {
      assert a + b == a;
    } else {
      assert (a + b)[..|a + b| - 1] == a + b[..|b| - 1];
      SumConcat(a, b[..|b| - 1], pick);
    }
  }

  lemma SumOne(m: Movement, pick: Movement -> bool)
    ensures Sum([m], pick) == if pick(m) then m.amount else 0
  {
    assert [m][..0] == [];
  }

  /** Adding up by parts that share no row. */
  lemma {:induction false} SumSplit(ms: seq<Movement>, whole: Movement -> bool, part: Movement -> bool,
                                    rest: Movement -> bool)
    requires forall m :: m in ms ==> (whole(m) <==> part(m) || rest(m)) && !(part(m) && rest(m))
    ensures Sum(ms, whole) == Sum(ms, part) + Sum(ms, rest)
  {
    if ms != [] {
      assert ms[|ms| - 1] in ms;
      SumSplit(ms[..|ms| - 1], whole, part, rest);
    }
  }

  lemma {:induction false} SumAgrees(ms: seq<Movement>, p: Movement -> bool, q: Movement -> bool)
    requires forall m :: m in ms ==> p(m) == q(m)
    ensures Sum(ms, p) == Sum(ms, q)
  {
    if ms != [] {
      assert ms[|ms| - 1] in ms;
      SumAgrees(ms[..|ms| - 1], p, q);
    }
  }

  /** The figures a payroll shows add up, for every ledger whatever is in it. */
  lemma {:induction false} BalanceAddsUp(ms: seq<Movement>, w: Id)
    ensures var b := BalanceOf(ms, w); b.balance == b.earned - b.paid - b.deducted + Sum(ms, Adjusting(w))
  {
    if ms != [] { BalanceAddsUp(ms[..|ms| - 1], w); }
  }

  /** Where each kind of row lands in the four figures of its worker. A row given back counts as
      less paid, a row taken back as less earned, whatever kind it was. */
  lemma PostsExactly(ms: seq<Movement>, m: Movement)
    ensures var (was, now) := (BalanceOf(ms, m.worker), BalanceOf(ms + [m], m.worker));
            && now.balance == was.balance + m.amount
            && now.earned == was.earned
               + (if m.kind.Devengo? || (m.kind.Reverso? && m.amount < 0) then m.amount else 0)
            && now.paid == was.paid
               - (if m.kind.Pago? || m.kind.Anticipo? || (m.kind.Reverso? && m.amount > 0) then m.amount else 0)
            && now.deducted == was.deducted - (if m.kind.Deduccion? then m.amount else 0)
  {
    assert (ms + [m])[..|ms|] == ms;
  }

  /* ---- what a reversal restores ---- */

  ghost predicate Cancels(r: Movement, m: Movement) {
    && r.kind.Reverso? && !m.kind.Reverso?
    && r.worker == m.worker && r.amount == -m.amount && r.reverses == Some(m.id)
  }

  lemma BalanceParts(a: seq<Movement>, m: Movement, b: seq<Movement>, r: Movement, pick: Movement -> bool)
    ensures Sum(a + [m] + b + [r], pick)
         == Sum(a + b, pick) + (if pick(m) then m.amount else 0) + (if pick(r) then r.amount else 0)
  {
    SumConcat(a + [m] + b, [r], pick);
    SumConcat(a + [m], b, pick);
    SumConcat(a, [m], pick);
    SumConcat(a, b, pick);
    SumOne(m, pick);
    SumOne(r, pick);
  }

  /** Reversing a movement, whatever was written since, gives the worker the balance of a
      ledger where it never happened. The three figures it is made of come back too exactly
      for an earning, a payment or an advance: undoing a deduction is counted as less paid,
      and undoing an adjustment as less earned or less paid. */
  lemma ReversalRestores(a: seq<Movement>, m: Movement, b: seq<Movement>, r: Movement)
    requires IsValidAmount(m.kind, m.amount) && Cancels(r, m)
    ensures var now, never := BalanceOf(a + [m] + b + [r], m.worker), BalanceOf(a + b, m.worker);
            && now.balance == never.balance
            && (now == never <==> m.kind.Devengo? || m.kind.Pago? || m.kind.Anticipo?)
  {
    hide Sum;
    var w := m.worker;
    BalanceParts(a, m, b, r, Of(w));
    BalanceParts(a, m, b, r, Earning(w));
    BalanceParts(a, m, b, r, Paying(w));
    BalanceParts(a, m, b, r, Deducting(w));
  }

  /** Nobody else's figures move. */
  lemma OthersUnmoved(ms: seq<Movement>, m: Movement, w: Id)
    requires m.worker != w
    ensures BalanceOf(ms + [m], w) == BalanceOf(ms, w)
  {
    assert (ms + [m])[..|ms|] == ms;
  }

  /* ---- the rows an append-only ledger may take ---- */

  predicate Reversed(ms: seq<Movement>, id: Id) { exists r :: r in ms && r.reverses == Some(id) }

  ghost predicate Used(ms: seq<Movement>, id: Id) { exists m :: m in ms && m.id == id }

  ghost predicate MayAppend(ms: seq<Movement>, x: Movement) {
    && !Used(ms, x.id)
    && IsValidAmount(x.kind, x.amount)
    && (x.kind.Reverso? <==> x.reverses.Some?)
    && (x.kind.Reverso? ==> !Reversed(ms, x.reverses.value) && exists m :: m in ms && Cancels(x, m))
  }

  ghost predicate WellFormed(ms: seq<Movement>) {
    ms != [] ==> WellFormed(ms[..|ms| - 1]) && MayAppend(ms[..|ms| - 1], ms[|ms| - 1])
  }

  lemma WellFormedSnoc(ms: seq<Movement>, x: Movement)
    requires WellFormed(ms) && MayAppend(ms, x)
    ensures WellFormed(ms + [x])
  {
    assert (ms + [x])[..|ms|] == ms;
  }

  lemma {:induction false} RowsValid(ms: seq<Movement>)
    requires WellFormed(ms)
    ensures forall i, j :: 0 <= i < j < |ms| ==> ms[i].id != ms[j].id
    ensures forall m :: m in ms ==> IsValidAmount(m.kind, m.amount) && (m.kind.Reverso? <==> m.reverses.Some?)
    ensures forall m :: m in ms && m.reverses.Some? ==> Used(ms, m.reverses.value)
  {
    if ms != [] {
      var front, x := ms[..|ms| - 1], ms[|ms| - 1];
      RowsValid(front);
      assert ms == front + [x];
      forall i | 0 <= i < |front| ensures ms[i].id != x.id { assert ms[i] in front; }
      forall m | m in ms && m.reverses.Some? ensures Used(ms, m.reverses.value) {
        assert Used(front, m.reverses.value);
      }
    }
  }

  /** A row counts while nothing reverses it; a reversal itself never counts. */
  function Live(ms: seq<Movement>, w: Id): Movement -> bool {
    (m: Movement) => m.worker == w && !m.kind.Reverso? && !Reversed(ms, m.id)
  }

  lemma {:induction false} SumWithout(ms: seq<Movement>, p: Movement -> bool, q: Movement -> bool, m: Movement)
    requires m in ms && p(m) && !q(m)
    requires forall i, j :: 0 <= i < j < |ms| ==> ms[i].id != ms[j].id
    requires forall x :: x in ms && x.id != m.id ==> p(x) == q(x)
    ensures Sum(ms, q) == Sum(ms, p) - m.amount
  {
    var front, x := ms[..|ms| - 1], ms[|ms| - 1];
    assert ms == front + [x];
    if x == m {
      forall y | y in front ensures y.id != m.id { var i :| 0 <= i < |front| && front[i] == y; }
      SumAgrees(front, p, q);
    } else {
      assert m in front;
      assert x.id != m.id by { var i :| 0 <= i < |front| && front[i] == m; }
      SumWithout(front, p, q, m);
    }
  }

  /** There is no stored total to drift: the balance is what the live rows say. */
  lemma {:induction false} BalanceIsLive(ms: seq<Movement>, w: Id)
    requires WellFormed(ms)
    ensures BalanceOf(ms, w).balance == Sum(ms, Live(ms, w))
  {
    if ms != [] {
      var front, x := ms[..|ms| - 1], ms[|ms| - 1];
      BalanceIsLive(front, w);
      LiveStep(front, x, w);
      assert ms == front + [x];
    }
  }

  lemma LiveStep(ms: seq<Movement>, x: Movement, w: Id)
    requires WellFormed(ms) && MayAppend(ms, x)
    ensures Sum(ms + [x], Live(ms + [x], w)) == Sum(ms, Live(ms, w)) + if x.worker == w then x.amount else 0
  {
    hide Sum, WellFormed;
    var p, q := Live(ms, w), Live(ms + [x], w);
    RowsValid(ms);
    SumConcat(ms, [x], q);
    SumOne(x, q);
    assert forall id :: Reversed(ms + [x], id) <==> Reversed(ms, id) || x.reverses == Some(id);
    if x.kind.Reverso? {
      var m :| m in ms && Cancels(x, m);
      forall y | y in ms && y.id == m.id ensures y == m {
        var i, j :| 0 <= i < |ms| && 0 <= j < |ms| && ms[i] == y && ms[j] == m;
      }
      if x.worker == w { SumWithout(ms, p, q, m); } else { SumAgrees(ms, p, q); }
    } else {
      SumAgrees(ms, p, q);
      assert !Reversed(ms, x.id);
    }
  }

  /* ---- debts ---- */

  function Debt(ms: seq<Movement>, w: Id): Movement -> bool {
    (m: Movement) => m.worker == w && (m.kind.Deduccion? || m.kind.Anticipo?) && !Reversed(ms, m.id)
  }

  function Credit(ms: seq<Movement>, w: Id): Movement -> bool {
    (m: Movement) => Live(ms, w)(m) && !Debt(ms, w)(m)
  }

  /** `debtsOf`, in ledger order: the advances and deductions that still stand. */
  function Debts(all: seq<Movement>, ms: seq<Movement>, w: Id): (ds: seq<Movement>)
    ensures forall m :: m in ds <==> m in ms && Debt(all, w)(m)
  {
    if ms == [] then []
    else
      var front, m := ms[..|ms| - 1], ms[|ms| - 1];
      assert ms == front + [m];
      if Debt(all, w)(m) then Debts(all, front, w) + [m] else Debts(all, front, w)
  }

  lemma {:induction false} DebtsSum(all: seq<Movement>, ms: seq<Movement>, w: Id)
    ensures Sum(Debts(all, ms, w), Of(w)) == Sum(ms, Debt(all, w))
  {
    if ms != [] {
      var front, m := ms[..|ms| - 1], ms[|ms| - 1];
      DebtsSum(all, front, w);
      SumConcat(Debts(all, front, w), [m], Of(w));
      SumOne(m, Of(w));
    }
  }

  /** What is listed as a debt: the worker's own deductions and advances that nothing reverses,
      and no other row. */
  lemma DebtsExactly(ms: seq<Movement>, w: Id, m: Movement)
    ensures m in Debts(ms, ms, w)
       <==> m in ms && m.worker == w && (m.kind.Deduccion? || m.kind.Anticipo?)
            && !exists r :: r in ms && r.reverses == Some(m.id)
  {
  }

  /** The debts listed are already inside the balance: taking them off again would charge
      the worker twice. */
  lemma DebtsAreInBalance(ms: seq<Movement>, w: Id)
    requires WellFormed(ms)
    ensures BalanceOf(ms, w).balance == Sum(ms, Credit(ms, w)) + Sum(Debts(ms, ms, w), Of(w))
  {
    BalanceIsLive(ms, w);
    DebtsSum(ms, ms, w);
    SumSplit(ms, Live(ms, w), Credit(ms, w), Debt(ms, w));
  }
}
