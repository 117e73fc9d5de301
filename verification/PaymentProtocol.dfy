/** Paying for settled work in two requests that may be lost, repeated, delayed and interleaved
    with everything else that happens on the farm. */
module PaymentProtocol {
  import opened Text
  import opened PriceRules
  import opened Ledger
  import opened Settlement
  import opened SettlementRuns
  import opened Payroll
  import opened FarmServer
  import opened Estimates
  import Amount
  import Calendar

  /** One figure a person read and approved, with the two ids minted for it then. */
  datatype Approval = Approval(
    settlement: Id,
    payment: Id,
    worker: Id,
    payables: seq<Id>,
    gross: Cents,
    cents: Cents)

  /** The window of one attempt. Each attempt names its own day; the server mints one id. */
  datatype Attempt = Attempt(from: Day, to: Day, today: Day, minted: Id)

  function SettleRequest(a: Approval, at: Attempt): (q: Request) {
    Request(a.settlement, a.worker, at.from, at.to, a.payables, Some(a.gross))
  }

  function PayRequest(a: Approval, today: Day): (p: Payment) {
    Payment(a.payment, Pago, a.worker, Amount.Abs(a.cents), today, true, false)
  }

  /* ---- the world: one farm, the requests that left, the answers that came back ---- */

  datatype World = World(
    farm: Tenant,
    settling: set<Approval>,   // settlement requests that left some device
    settled: set<Approval>,    // approvals whose settlement was answered 200 or 201
    paying: set<Approval>)     // payment requests that left

  datatype Event =
    | Send(a: Approval)
    | ArriveSettle(a: Approval, at: Attempt, answered: bool)
    | SendPayment(a: Approval)
    | ArrivePayment(a: Approval, today: Day)
    | Elsewhere(step: Step)

  /** What an event elsewhere may not do: use an id minted for one of these approvals. */
  ghost predicate Foreign(known: set<Approval>, s: Step) {
    forall a :: a in known ==> ForeignTo(a, s)
  }

  predicate ForeignTo(a: Approval, s: Step) {
    match s
    case Settling(q, _, minted) => q.id != a.settlement && minted != a.payment
    case Paying(p) => p.id != a.payment
    case Voiding(_, _, ids) => a.payment !in ids
    case Reversing(_, _, minted) => minted != a.payment
    case _ => true
  }

  /** When an event can happen. A payment leaves only after its settlement was answered, or
      when nothing was to be settled; what left may arrive any number of times, or never. */
  ghost predicate Enabled(known: set<Approval>, w: World, e: Event) {
    match e
    case Send(a) => a in known && a.payables != []
    case ArriveSettle(a, at, _) =>
      a in w.settling && Proper(w.farm, StepOf(e))
      && forall b :: b in known ==> at.minted != b.payment
    case SendPayment(a) => a in known && (a in w.settled || a.payables == [])
    case ArrivePayment(a, _) => a in w.paying
    case Elsewhere(s) => Proper(w.farm, s) && Foreign(known, s)
  }

  function StepOf(e: Event): (s: Step)
    requires !e.Send? && !e.SendPayment?
  {
    match e
    case ArriveSettle(a, at, _) => Settling(SettleRequest(a, at), at.today, at.minted)
    case ArrivePayment(a, today) => Paying(PayRequest(a, today))
    case Elsewhere(s) => s
  }

  ghost function Next(known: set<Approval>, w: World, e: Event): (v: World)
    requires Enabled(known, w, e)
  {
    match e
    case Send(a) => w.(settling := w.settling + {a})
    case ArriveSettle(a, at, answered) =>
      var (t, answer) := Settle(w.farm, SettleRequest(a, at), at.today, at.minted);
      w.(farm := t, settled := if answered && !answer.Refused? then w.settled + {a} else w.settled)
    case SendPayment(a) => w.(paying := w.paying + {a})
    case _ => w.(farm := Apply(w.farm, StepOf(e)))
  }

  ghost predicate EnabledRun(known: set<Approval>, w: World, es: seq<Event>)
    decreases |es|
  {
    es != [] ==> Enabled(known, w, es[0]) && EnabledRun(known, Next(known, w, es[0]), es[1..])
  }

  ghost function RunWorld(known: set<Approval>, w: World, es: seq<Event>): (v: World)
    requires EnabledRun(known, w, es)
    decreases |es|
  {
    if es == [] then w else RunWorld(known, Next(known, w, es[0]), es[1..])
  }

  /** The same names, in whatever order. */
  ghost predicate SameNames(xs: seq<Id>, ys: seq<Id>) {
    (forall x :: x in xs ==> x in ys) && forall y :: y in ys ==> y in xs
  }

  /** One approved fact: the order its work was named in does not matter, nor does a gross that
      no settlement could be written for. */
  ghost predicate Alike(a: Approval, b: Approval) {
    && b == a.(payables := b.payables, gross := b.gross) && SameNames(a.payables, b.payables)
    && (a.payables == [] || a.gross == b.gross || (a.gross <= 0 && b.gross <= 0))
  }

  /** Ids minted once each: two approvals that share one are the same fact. */
  ghost predicate OnceMinted(known: set<Approval>) {
    forall a, b :: a in known && b in known && (a.settlement == b.settlement || a.payment == b.payment) ==> Alike(a, b)
  }

  lemma NamesSomething(xs: seq<Id>, ys: seq<Id>)
    requires xs != [] && forall x :: x in xs ==> x in ys
    ensures ys != []
  {
    var x: Id := xs[0];
    assert x in xs;
  }

  lemma SameNamesEmpty(xs: seq<Id>, ys: seq<Id>)
    requires SameNames(xs, ys)
    ensures xs == [] <==> ys == []
  {
    if xs != [] { NamesSomething(xs, ys); }
    if ys != [] { NamesSomething(ys, xs); }
  }

  /* ---- what each approval is guaranteed ---- */

  ghost predicate SettledAs(s: Settlement, a: Approval) {
    && s.worker == a.worker && s.gross == a.gross
    && forall i :: i in s.items ==> i.payable in a.payables
  }

  predicate PaidAs(m: Movement, a: Approval) {
    m.kind.Pago? && m.worker == a.worker && m.amount == -(Amount.Abs(a.cents) as int)
  }

  ghost predicate HasId(ss: seq<Settlement>, id: Id) { exists s :: s in ss && s.id == id }

  /** Under an approval's ids there is only what was approved, and no payment without its
      settlement. */
  ghost predicate Honoured(t: Tenant, a: Approval) {
    && (forall s :: s in t.settlements && s.id == a.settlement ==> SettledAs(s, a))
    && (forall m :: m in t.ledger && m.id == a.payment ==> PaidAs(m, a))
    && (a.payables != [] && Used(t.ledger, a.payment) ==> HasId(t.settlements, a.settlement))
  }

  ghost predicate Safe(known: set<Approval>, w: World) {
    && Sound(w.farm)
    && w.settling <= known && w.settled <= known && w.paying <= known
    && (forall a :: a in w.settling ==> a.payables != [])
    && (forall a :: a in known ==> Honoured(w.farm, a))
    && (forall a :: a in w.settled ==> HasId(w.farm.settlements, a.settlement))
    && (forall a :: a in w.paying ==> a.payables != [] ==> a in w.settled)
  }

  /* ---- one request at a time ---- */

  lemma HasIdKept(t: Tenant, u: Tenant, id: Id)
    requires Frozen(t, u) && HasId(t.settlements, id)
    ensures HasId(u.settlements, id)
  {
    var s :| s in t.settlements && s.id == id;
    var k :| 0 <= k < |t.settlements| && t.settlements[k] == s;
    assert SettlementFrozen(t.settlements[k], u.settlements[k]) && u.settlements[k] in u.settlements;
  }

  lemma SettledKept(a: Approval, s: Settlement, v: Settlement)
    requires SettlementFrozen(s, v) && SettledAs(s, a)
    ensures SettledAs(v, a)
  {
    forall i | i in v.items ensures i.payable in a.payables {
      var k :| 0 <= k < |v.items| && v.items[k] == i;
      assert ItemFrozen(s.items[k], v.items[k]) && s.items[k] in s.items;
    }
  }

  /** A step that adds nothing under the approval's ids keeps what was promised. */
  lemma HonouredKept(t: Tenant, u: Tenant, a: Approval)
    requires Frozen(t, u) && Honoured(t, a)
    requires forall k :: |t.settlements| <= k < |u.settlements| && u.settlements[k].id == a.settlement
               ==> SettledAs(u.settlements[k], a)
    requires forall k :: |t.ledger| <= k < |u.ledger| && u.ledger[k].id == a.payment
               ==> PaidAs(u.ledger[k], a) && (a.payables != [] ==> HasId(t.settlements, a.settlement))
    ensures Honoured(u, a)
  {
    hide SettledAs, PaidAs;
    forall s | s in u.settlements && s.id == a.settlement ensures SettledAs(s, a) {
      var k :| 0 <= k < |u.settlements| && u.settlements[k] == s;
      if k < |t.settlements| {
        assert SettlementFrozen(t.settlements[k], s) && t.settlements[k] in t.settlements;
        SettledKept(a, t.settlements[k], s);
      }
    }
    forall m | m in u.ledger && m.id == a.payment
      ensures PaidAs(m, a) && (a.payables != [] ==> HasId(t.settlements, a.settlement))
    {
      var k :| 0 <= k < |u.ledger| && u.ledger[k] == m;
      if k < |t.ledger| { assert u.ledger[k] == t.ledger[k] && t.ledger[k] in t.ledger; }
    }
    if a.payables != [] && Used(u.ledger, a.payment) { HasIdKept(t, u, a.settlement); }
  }

  lemma ChosenNamed(all: seq<Line>, ids: seq<Id>)
    requires ids != []
    ensures forall i :: i in ItemsOf(Chosen(all, ids)) ==> i.payable in ids
  {
    var chosen := Chosen(all, ids);
    forall i | i in ItemsOf(chosen) ensures i.payable in ids {
      var k :| 0 <= k < |chosen| && ItemsOf(chosen)[k] == i;
      assert chosen[k] in chosen;
    }
  }

  /** What a settlement request writes is what its approval says, and nothing else. */
  lemma SettleWrites(t: Tenant, q: Request, today: Day, minted: Id)
    requires Sound(t) && !Used(t.ledger, minted)
    ensures var (u, answer) := Settle(t, q, today, minted);
            && (!answer.Refused? ==> HasId(u.settlements, q.id))
            && (!answer.Done? ==> u == t)
            && (answer.Done? ==>
                  && u.settlements == t.settlements + [answer.value] && answer.value.id == q.id
                  && answer.value.worker == q.worker && Some(answer.value.gross) == q.expected && answer.value.gross > 0
                  && (q.wanted != [] ==> forall i :: i in answer.value.items ==> i.payable in q.wanted)
                  && u.ledger == t.ledger + [EarningOf(answer.value, today, minted)])
  {
    hide Sound, Pending, Chosen, Refusal, NewSettlement;
    var (u, answer) := Settle(t, q, today, minted);
    if answer.Done? {
      var chosen := Chosen(Pending(t, q.worker, q.from, q.to), q.wanted);
      NewSettlementKept(t, q);
      NewItems(q, chosen);
      if q.wanted != [] { ChosenNamed(Pending(t, q.worker, q.from, q.to), q.wanted); }
      assert u.settlements[|t.settlements|] == answer.value;
    } else if answer.Replayed? {
      assert t.settlements[IndexOf(t.settlements, q.id).value] in t.settlements;
    }
  }

  lemma ArriveSettleHonours(t: Tenant, a: Approval, at: Attempt, b: Approval)
    requires Sound(t) && !Used(t.ledger, at.minted) && a.payables != []
    requires Honoured(t, b) && at.minted != b.payment && (a.settlement == b.settlement ==> Alike(a, b))
    ensures Honoured(Settle(t, SettleRequest(a, at), at.today, at.minted).0, b)
  {
    hide Sound, Settle, Honoured;
    var q := SettleRequest(a, at);
    SettleWrites(t, q, at.today, at.minted);
    StepFrozen(t, Settling(q, at.today, at.minted));
    HonouredKept(t, Settle(t, q, at.today, at.minted).0, b);
  }

  lemma ArrivePaymentHonours(t: Tenant, a: Approval, today: Day, b: Approval)
    requires Honoured(t, b) && (a.payment == b.payment ==> Alike(a, b))
    requires a.payables != [] ==> HasId(t.settlements, a.settlement)
    ensures Honoured(Pay(t, PayRequest(a, today)).0, b)
  {
    hide Honoured, BalanceOf, HasId;
    StepFrozen(t, Paying(PayRequest(a, today)));
    if a.payment == b.payment { SameNamesEmpty(a.payables, b.payables); }
    HonouredKept(t, Pay(t, PayRequest(a, today)).0, b);
  }

  lemma VoidWrites(t: Tenant, id: Id, today: Day, ids: seq<Id>)
    requires |ids| == |Unreversed(t.ledger, t.ledger, id)|
    ensures var u := Void(t, id, today, ids).0;
            && |u.settlements| == |t.settlements|
            && forall k :: |t.ledger| <= k < |u.ledger| ==> u.ledger[k].id in ids
  {
  }

  lemma ElsewhereHonours(t: Tenant, s: Step, b: Approval)
    requires Sound(t) && Proper(t, s) && Honoured(t, b) && ForeignTo(b, s)
    ensures Honoured(Apply(t, s), b)
  {
    hide Sound, Settle, Void, Honoured, Register, Correct, Remove, BalanceOf, Find;
    StepFrozen(t, s);
    match s {
      case Settling(q, today, minted) => SettleWrites(t, q, today, minted);
      case Voiding(id, today, ids) => VoidWrites(t, id, today, ids);
      case Paying(_) =>
      case Reversing(_, _, _) =>
      case Repricing(_) =>
      case _ => RecordsOnly(t, s);
    }
    HonouredKept(t, Apply(t, s), b);
  }

  lemma StepKeepsIds(t: Tenant, s: Step)
    requires Proper(t, s)
    ensures forall id :: HasId(t.settlements, id) ==> HasId(Apply(t, s).settlements, id)
  {
    hide HasId, Apply;
    StepFrozen(t, s);
    forall id | HasId(t.settlements, id) ensures HasId(Apply(t, s).settlements, id) { HasIdKept(t, Apply(t, s), id); }
  }

  lemma EventSafe(known: set<Approval>, w: World, e: Event)
    requires OnceMinted(known) && Safe(known, w) && Enabled(known, w, e)
    ensures Safe(known, Next(known, w, e))
  {
    hide Sound, Honoured, HasId, Proper, Settle, Apply, Foreign;
    var v := Next(known, w, e);
    if !e.Send? && !e.SendPayment? {
      EventIsStep(known, w, e);
      StepSound(w.farm, StepOf(e));
      StepKeepsIds(w.farm, StepOf(e));
      forall b | b in known ensures Honoured(v.farm, b) { EventHonours(known, w, e, b); }
      if e.ArriveSettle? { AnsweredMeansSettled(w.farm, e.a, e.at); }
    }
  }

  lemma EventIsStep(known: set<Approval>, w: World, e: Event)
    requires Enabled(known, w, e) && !e.Send? && !e.SendPayment?
    ensures Proper(w.farm, StepOf(e)) && Next(known, w, e).farm == Apply(w.farm, StepOf(e))
  {
    hide Settle, Pay;
  }

  lemma AnsweredMeansSettled(t: Tenant, a: Approval, at: Attempt)
    requires Sound(t) && Proper(t, Settling(SettleRequest(a, at), at.today, at.minted))
    ensures var (u, answer) := Settle(t, SettleRequest(a, at), at.today, at.minted);
            !answer.Refused? ==> HasId(u.settlements, a.settlement)
  {
    hide Sound, Settle;
    SettleWrites(t, SettleRequest(a, at), at.today, at.minted);
  }

  lemma EventHonours(known: set<Approval>, w: World, e: Event, b: Approval)
    requires OnceMinted(known) && Safe(known, w) && Enabled(known, w, e) && !e.Send? && !e.SendPayment? && b in known
    ensures Honoured(Next(known, w, e).farm, b)
  {
    hide Sound, Honoured, HasId, Settle, Pay;
    match e {
      case ArriveSettle(a, at, _) => ArriveSettleHonours(w.farm, a, at, b);
      case ArrivePayment(a, today) => ArrivePaymentHonours(w.farm, a, today, b);
      case Elsewhere(s) => ElsewhereHonours(w.farm, s, b);
    }
  }

  lemma {:induction false} RunSafe(known: set<Approval>, w: World, es: seq<Event>)
    requires OnceMinted(known) && Safe(known, w) && EnabledRun(known, w, es)
    ensures Safe(known, RunWorld(known, w, es))
    decreases |es|
  {
    hide OnceMinted, Safe, Enabled, Next;
    if es != [] {
      EventSafe(known, w, es[0]);
      RunSafe(known, Next(known, w, es[0]), es[1..]);
    }
  }

  /** Nothing has been written yet under the ids of these approvals. */
  ghost predicate Unwritten(known: set<Approval>, t: Tenant) {
    forall a :: a in known ==> !HasId(t.settlements, a.settlement) && !Used(t.ledger, a.payment)
  }

  ghost predicate AtMostOneSettlement(ss: seq<Settlement>, id: Id) {
    forall i, j :: 0 <= i < j < |ss| ==> !(ss[i].id == id && ss[j].id == id)
  }

  ghost predicate AtMostOneRow(ms: seq<Movement>, id: Id) {
    forall i, j :: 0 <= i < j < |ms| ==> !(ms[i].id == id && ms[j].id == id)
  }

  /** However often a payment is retried, and whatever is weighed, repriced, voided or lost in
      between: one settlement and one payment at most per approval, the settlement for exactly
      the approved gross and out of the approved work only, the payment for exactly the
      approved amount and never before the settlement exists. */
  lemma OneApprovalOnePayment(known: set<Approval>, farm: Tenant, es: seq<Event>, a: Approval)
    requires OnceMinted(known) && Sound(farm) && Unwritten(known, farm) && a in known
    requires EnabledRun(known, World(farm, {}, {}, {}), es)
    ensures var t := RunWorld(known, World(farm, {}, {}, {}), es).farm;
            && AtMostOneSettlement(t.settlements, a.settlement) && AtMostOneRow(t.ledger, a.payment)
            && Honoured(t, a)
  {
    hide Sound, EnabledRun, RunWorld;
    var w := World(farm, {}, {}, {});
    assert Safe(known, w) by { UnwrittenIsHonoured(known, farm); }
    RunSafe(known, w, es);
    SoundIsOnce(RunWorld(known, w, es).farm);
  }

  lemma UnwrittenIsHonoured(known: set<Approval>, t: Tenant)
    requires Unwritten(known, t)
    ensures forall a :: a in known ==> Honoured(t, a)
  {
    hide SettledAs, PaidAs;
  }

  lemma SoundIsOnce(t: Tenant)
    requires Sound(t)
    ensures forall i, j :: 0 <= i < j < |t.settlements| ==> t.settlements[i].id != t.settlements[j].id
    ensures forall i, j :: 0 <= i < j < |t.ledger| ==> t.ledger[i].id != t.ledger[j].id
  {
    hide SettlementKept, OneClaim, ClaimsKept, EarningsKept, RecordsKept;
    RowsValid(t.ledger);
  }

  /* ---- one attempt, as the client runs it ---- */

  /** The first half of an attempt: settle the approved work, if there is any. */
  function FirstHalf(t: Tenant, a: Approval, at: Attempt): (r: (Tenant, Option<Reason>)) {
    if a.payables == [] then (t, None)
    else
      var (u, s) := Settle(t, SettleRequest(a, at), at.today, at.minted);
      (u, if s.Refused? then Some(s.why) else None)
  }

  /** An attempt whose requests all arrive. Reading the balance of nobody's worker is refused
      before any payment is posted. */
  function Attempted(t: Tenant, a: Approval, at: Attempt): (r: (Tenant, Answer<Movement>)) {
    var (u, why) := FirstHalf(t, a, at);
    if why.Some? then (u, Refused(why.value))
    else if a.worker !in u.workers then (u, Refused(NotFound))
    else Pay(u, PayRequest(a, at.today))
  }

  /** Which of the four answers came back. */
  datatype Heard = Heard(settle: bool, before: bool, pay: bool, after: bool)

  datatype Receipt = Receipt(row: Movement, before: Cents, after: Cents)

  datatype Outcome = Paid(receipt: Receipt) | Failed(why: Reason) | NoAnswer

  /** What the caller is told. */
  function OutcomeOf(t: Tenant, a: Approval, at: Attempt, heard: Heard): (o: Outcome) {
    var ((u, why), (v, paid)) := (FirstHalf(t, a, at), Attempted(t, a, at));
    if a.payables != [] && !heard.settle then NoAnswer
    else if why.Some? then Failed(why.value)
    else if !heard.before then NoAnswer
    else if a.worker !in t.workers then Failed(NotFound)
    else if !heard.pay then NoAnswer
    else if paid.Refused? then Failed(paid.why)
    else if !heard.after then NoAnswer
    else Paid(Receipt(paid.value, BalanceOf(u.ledger, a.worker).balance, BalanceOf(v.ledger, a.worker).balance))
  }

  /** `createPayment`: settle, read the balance, pay, read it again. Any of the four answers may
      be lost, the writes' own after the farm has written. */
  method CreatePayment(farm: Farm, a: Approval, at: Attempt, heard: Heard) returns (o: Outcome)
    requires farm.Valid() && !Used(farm.ledger, at.minted)
    modifies farm
    ensures farm.Valid()
    ensures var t := old(farm.State());
            var (u, why) := FirstHalf(t, a, at);
            var stops := (a.payables != [] && !heard.settle) || why.Some? || !heard.before;
            farm.State() == if stops then u else Attempted(t, a, at).0
    ensures o == OutcomeOf(old(farm.State()), a, at, heard)
  {
    hide Sound, Settle, Pay, Used, BalanceOf;
    SettleKeepsWorkers(farm.State(), SettleRequest(a, at), at.today, at.minted);
    if a.payables != [] {
      var s := farm.SettleWork(SettleRequest(a, at), at.today, at.minted);
      if !heard.settle { return NoAnswer; }
      if s.Refused? { return Failed(s.why); }
    }
    if !heard.before { return NoAnswer; }
    if a.worker !in farm.workers { return Failed(NotFound); }
    var before := BalanceOf(farm.ledger, a.worker).balance;
    var paid := farm.AddMovement(PayRequest(a, at.today));
    if !heard.pay { return NoAnswer; }
    if paid.Refused? { return Failed(paid.why); }
    if !heard.after { return NoAnswer; }
    o := Paid(Receipt(paid.value, before, BalanceOf(farm.ledger, a.worker).balance));
  }

  lemma SettleKeepsWorkers(t: Tenant, q: Request, today: Day, minted: Id)
    ensures Settle(t, q, today, minted).0.workers == t.workers
  {
    hide Pending, Refusal, NewSettlement;
  }

  /** Settling writes an earning and nothing under the payment's id. */
  lemma FirstHalfUses(t: Tenant, a: Approval, at: Attempt)
    requires at.minted != a.payment
    ensures Used(FirstHalf(t, a, at).0.ledger, a.payment) <==> Used(t.ledger, a.payment)
  {
    hide Pending, Refusal, NewSettlement;
  }

  /** The two balances of a receipt differ by the money handed over exactly when no row stood
      under the payment's id before the attempt. A retry that finds one shows one balance
      twice. */
  lemma ReceiptAddsUp(t: Tenant, a: Approval, at: Attempt, heard: Heard)
    requires OutcomeOf(t, a, at, heard).Paid? && at.minted != a.payment
    ensures var r := OutcomeOf(t, a, at, heard).receipt;
            && (r.before - r.after == Amount.Abs(a.cents) <==> !Used(t.ledger, a.payment))
            && (Used(t.ledger, a.payment) ==> r.before == r.after)
  {
    hide Settle, BalanceOf, Used, FirstHalf;
    FirstHalfUses(t, a, at);
    var u := FirstHalf(t, a, at).0;
    if Pay(u, PayRequest(a, at.today)).1.Done? { PayMovesBalance(u, PayRequest(a, at.today)); }
  }

  /** Once both rows are there, one more attempt writes nothing and answers with the payment. */
  lemma RetryWritesNothing(t: Tenant, a: Approval, at: Attempt)
    requires Sound(t) && Honoured(t, a) && Used(t.ledger, a.payment) && a.cents != 0 && at.from <= at.to
    ensures var (u, answer) := Attempted(t, a, at);
            && u == t && (answer.Replayed? <==> a.worker in t.workers)
            && (answer.Replayed? ==>
                  answer.value in t.ledger && answer.value.id == a.payment && PaidAs(answer.value, a))
            && (!answer.Replayed? ==> answer == Refused(NotFound))
  {
    hide Sound, BalanceOf;
    if a.payables != [] {
      var s :| s in t.settlements && s.id == a.settlement;
      assert IndexOf(t.settlements, a.settlement).Some?;
    }
  }

  /** The retry does not ask whether the settlement it finds was voided meanwhile. A payment
      then goes out against other money owed, exactly when there is enough of it. */
  lemma RetryAfterVoid(t: Tenant, a: Approval, at: Attempt, k: nat)
    requires Sound(t) && k < |t.settlements| && t.settlements[k].id == a.settlement && t.settlements[k].voided
    requires a.payables != [] && a.cents != 0 && !Used(t.ledger, a.payment) && a.worker in t.workers && at.from <= at.to
    ensures var (u, answer) := Attempted(t, a, at);
            && u.settlements == t.settlements
            && (answer.Done? <==> Amount.Abs(a.cents) <= BalanceOf(t.ledger, a.worker).balance)
            && (!answer.Done? ==> u == t && answer == Refused(ExceedsBalance(BalanceOf(t.ledger, a.worker).balance)))
  {
    hide Sound, BalanceOf, Used;
    assert t.settlements[k] in t.settlements;
  }

  /** Settled, voided and then retried: the payment goes out exactly when as much was owed
      before any of it. */
  lemma SettleVoidRetry(t: Tenant, a: Approval, at: Attempt, later: Day, reversal: Id, again: Attempt)
    requires Sound(t) && a.payables != [] && a.cents != 0 && a.worker in t.workers && again.from <= again.to
    requires !Used(t.ledger, at.minted) && !Used(t.ledger, reversal) && at.minted != reversal
    requires !Used(t.ledger, a.payment) && a.payment != at.minted && a.payment != reversal
    requires Settle(t, SettleRequest(a, at), at.today, at.minted).1.Done?
    ensures var u := Settle(t, SettleRequest(a, at), at.today, at.minted).0;
            && Proper(u, Voiding(a.settlement, later, [reversal]))
            && var v := Void(u, a.settlement, later, [reversal]).0;
               && (exists s :: s in v.settlements && s.id == a.settlement && s.voided)
               && (Attempted(v, a, again).1.Done? <==> Amount.Abs(a.cents) <= BalanceOf(t.ledger, a.worker).balance)
  {
    hide Sound, BalanceOf, Settle, Void, Attempted, Unreversed, Pending;
    var q := SettleRequest(a, at);
    var (u, s) := Settle(t, q, at.today, at.minted);
    SettleThenVoid(t, q, at.today, at.minted, later, reversal, a.worker, at.from, at.to);
    SettleSound(t, q, at.today, at.minted);
    SettleWrites(t, q, at.today, at.minted);
    SettleKeepsWorkers(t, q, at.today, at.minted);
    VoidSound(u, a.settlement, later, [reversal]);
    VoidRows(u, a.settlement, later, [reversal]);
    var v := Void(u, a.settlement, later, [reversal]).0;
    var k := IndexOf(u.settlements, a.settlement).value;
    assert v.settlements[k] in v.settlements;
    RetryAfterVoid(v, a, again, k);
  }

  lemma VoidRows(t: Tenant, id: Id, today: Day, ids: seq<Id>)
    requires |ids| == |Unreversed(t.ledger, t.ledger, id)| && Void(t, id, today, ids).1.Done?
    ensures var (u, a) := Void(t, id, today, ids);
            && u.workers == t.workers && IndexOf(t.settlements, id).Some?
            && u.settlements == t.settlements[IndexOf(t.settlements, id).value := a.value]
            && a.value.id == id && a.value.voided
            && forall m :: m in u.ledger ==> m in t.ledger || m.id in ids
  {
    hide Unreversed;
  }

  /* ---- a farm where that happens ---- */

  function Bare(w: Id): (t: Tenant) { Tenant({w}, [], Flat(1), [], []) }

  function Extra(w: Id, day: Day): (p: Payment) { Payment(3, Ajuste, w, 1, day, false, false) }

  function Job(w: Id, day: Day): (d: Draft) {
    Draft(1, w, [], Some(Activity(false, false, [])), day, day, ONE, Some(1), false)
  }

  function JobRecord(w: Id, day: Day): (r: Record) {
    Record(1, w, [], day, day, Calendar.MondayOf(day), ONE, Explicit, Some(1), Some(1), 1, false)
  }

  function Deed(w: Id): (a: Approval) { Approval(1, 5, w, [1], 1, 1) }

  function At(day: Day, minted: Id): (at: Attempt) { Attempt(day, day, day, minted) }

  lemma ExtraIsOwed(w: Id, day: Day)
    ensures var m := Movement(3, w, Ajuste, 1, day, None, None);
            && Pay(Bare(w), Extra(w, day)) == (Bare(w).(ledger := [m]), Done(m))
            && BalanceOf([m], w).balance == 1 && (forall id :: Used([m], id) <==> id == 3)
  {
    var m := Movement(3, w, Ajuste, 1, day, None, None);
    assert Bare(w).ledger + [m] == [m];
    SumOne(m, Of(w));
  }

  lemma JobIsRegistered(t: Tenant, w: Id, day: Day)
    requires t.records == []
    ensures Register(t, Job(w, day)) == (t.(records := [JobRecord(w, day)]), Done(JobRecord(w, day)))
  {
    hide Calendar.MondayOf;
    assert Worth(ONE, 1) == 1;
    assert [JobRecord(w, day)] + [] == [JobRecord(w, day)];
  }

  lemma JobSettles(t: Tenant, w: Id, day: Day, minted: Id)
    requires t.records == [JobRecord(w, day)] && t.settlements == []
    ensures Settle(t, SettleRequest(Deed(w), At(day, minted)), day, minted).1.Done?
  {
    hide Calendar.MondayOf, Pending, NewSettlement;
    var l := LineOf(t.book, JobRecord(w, day));
    assert !IsSettled(t.settlements, 1);
    OnlyRecord(t, JobRecord(w, day), w, day, day);
    assert l.amount == 1 && [l][1..] == [] && Named([l], [1]) == [l];
    assert Gross([l][..0]) == 0 && Gross([l]) == 1;
  }

  /** Somebody is owed one from before, one more is settled and voided, and its payment,
      retried, takes the one from before. */
  lemma VoidedRetryPays(w: Id, day: Day)
    ensures exists steps :: ProperRun(Bare(w), steps) && PaysAgainstVoided(Run(Bare(w), steps), Deed(w), At(day, 2))
  {
    hide Sound, Settle, Void, Pay, Register, Attempted, BalanceOf, Unreversed;
    var x := Pay(Bare(w), Extra(w, day)).0;
    var u := Register(x, Job(w, day)).0;
    ExtraIsOwed(w, day);
    JobIsRegistered(x, w, day);
    JobSettles(u, w, day, 2);
    assert Sound(u) by {
      EmptyFarmIsSound({w}, Flat(1));
      PaySound(Bare(w), Extra(w, day));
      RegisterSound(x, Job(w, day));
    }
    SettleVoidRetry(u, Deed(w), At(day, 2), day, 4, At(day, 2));
    var q := SettleRequest(Deed(w), At(day, 2));
    var y := Settle(u, q, day, 2).0;
    var steps := [Paying(Extra(w, day)), Registering(Job(w, day)), Settling(q, day, 2), Voiding(1, day, [4])];
    FourSteps(Bare(w), steps, x, u, y);
  }

  /** A payment that goes out though its settlement is void. */
  ghost predicate PaysAgainstVoided(t: Tenant, a: Approval, at: Attempt) {
    (exists s :: s in t.settlements && s.id == a.settlement && s.voided) && Attempted(t, a, at).1.Done?
  }

  lemma FourSteps(t: Tenant, steps: seq<Step>, x: Tenant, u: Tenant, y: Tenant)
    requires |steps| == 4 && Proper(t, steps[0]) && x == Apply(t, steps[0])
    requires Proper(x, steps[1]) && u == Apply(x, steps[1])
    requires Proper(u, steps[2]) && y == Apply(u, steps[2]) && Proper(y, steps[3])
    ensures ProperRun(t, steps) && Run(t, steps) == Apply(y, steps[3])
  {
    hide Apply, Proper;
    var z := Apply(y, steps[3]);
    assert ProperRun(z, []) && Run(z, []) == z;
    assert steps[3..][1..] == [] && steps[3..][0] == steps[3];
    assert ProperRun(y, steps[3..]) && Run(y, steps[3..]) == z;
    assert steps[2..][1..] == steps[3..];
    assert ProperRun(u, steps[2..]) && Run(u, steps[2..]) == z;
    assert steps[1..][1..] == steps[2..];
  }

  /** A payment never takes more than is owed when it is written. */
  lemma PaymentWithinBalance(t: Tenant, a: Approval, today: Day)
    requires Pay(t, PayRequest(a, today)).1.Done?
    ensures var u := Pay(t, PayRequest(a, today)).0;
            0 <= BalanceOf(u.ledger, a.worker).balance == BalanceOf(t.ledger, a.worker).balance - Amount.Abs(a.cents)
  {
    hide Sum, Used;
    var m := Pay(t, PayRequest(a, today)).1.value;
    SumConcat(t.ledger, [m], Of(a.worker));
    SumOne(m, Of(a.worker));
  }
}
