/** One approved fact, one pair of ids: what a screen hands to each attempt at a payment, when
    two attempts share it, and when that is safe. */
module WriteOnce {
  import opened Text
  import opened PriceRules
  import opened Settlement
  import opened SettlementRuns
  import opened Payroll
  import opened Estimates
  import opened PaymentProtocol

  /** What the name of a payment is made of. The gross that was approved is no part of it. */
  datatype Intent = Intent(worker: Id, cents: Cents, advance: Cents, how: string, receivedBy: string, payables: set<Id>)

  datatype Ids = Ids(settlement: Id, payment: Id)

  /** A press that ran, with the ids to use if none are held; or ids forgotten, because the
      write landed or because its figure is dead. */
  datatype Act =
    | Pressed(intent: Intent, named: seq<Id>, gross: Cents, minted: Ids)
    | Retired(intent: Intent)

  function Held(h: seq<Act>): (ids: map<Intent, Ids>)
    ensures h != [] && h[|h| - 1].Pressed? ==> h[|h| - 1].intent in ids
  {
    if h == [] then map[]
    else
      var was := Held(h[..|h| - 1]);
      match h[|h| - 1]
      case Pressed(i, _, _, minted) => if i in was then was else was[i := minted]
      case Retired(i) => was - {i}
  }

  /** What one press sends: the figure on the screen under the ids held for its intent. */
  function ApprovalAt(h: seq<Act>, n: nat): (a: Approval)
    requires n < |h| && h[n].Pressed?
  {
    var ids := Held(h[..n + 1])[h[n].intent];
    Approval(ids.settlement, ids.payment, h[n].intent.worker, h[n].named, h[n].gross, h[n].intent.cents)
  }

  /** No id is ever minted twice. */
  ghost predicate Fresh(h: seq<Act>) {
    forall i, j :: 0 <= i < j < |h| && h[i].Pressed? && h[j].Pressed?
      ==> h[i].minted.settlement != h[j].minted.settlement && h[i].minted.payment != h[j].minted.payment
  }

  predicate RetiredIn(h: seq<Act>, i: int, j: int, intent: Intent) {
    exists r :: 0 <= r < |h| && i < r < j && h[r] == Retired(intent)
  }

  /** Where the ids held for an intent come from: the press that minted them. */
  predicate MintedAt(h: seq<Act>, n: int, k: int, intent: Intent) {
    0 <= k < n <= |h| && h[k].Pressed? && h[k].intent == intent && !RetiredIn(h, k, n, intent)
  }

  lemma {:induction false} HeldComesFrom(h: seq<Act>, n: nat, intent: Intent) returns (k: nat)
    requires n <= |h| && intent in Held(h[..n])
    ensures MintedAt(h, n, k, intent) && Held(h[..n])[intent] == h[k].minted
  {
    assert h[..n][..n - 1] == h[..n - 1];
    if intent in Held(h[..n - 1]) {
      k := HeldComesFrom(h, n - 1, intent);
    } else {
      k := n - 1;
    }
  }

  lemma {:induction false} HeldIsKept(h: seq<Act>, n: nat, m: nat, intent: Intent)
    requires n <= m <= |h| && intent in Held(h[..n]) && !RetiredIn(h, n - 1, m, intent)
    ensures intent in Held(h[..m]) && Held(h[..m])[intent] == Held(h[..n])[intent]
  {
    if n < m {
      HeldIsKept(h, n, m - 1, intent);
      assert h[..m][..m - 1] == h[..m - 1];
      assert h[m - 1] != Retired(intent);
    }
  }

  /** One press is a retry of another. */
  predicate Retry(h: seq<Act>, i: nat, j: nat) {
    i < j < |h| && h[i].Pressed? && h[j].Pressed? && h[i].intent == h[j].intent && !RetiredIn(h, i, j, h[i].intent)
  }

  /** Two presses carry the same ids exactly when they are of one intent and nothing retired it
      in between; otherwise they share neither id. */
  lemma SharedExactly(h: seq<Act>, i: nat, j: nat)
    requires Fresh(h) && i < j < |h| && h[i].Pressed? && h[j].Pressed?
    ensures var (a, b) := (ApprovalAt(h, i), ApprovalAt(h, j));
            && (a.settlement == b.settlement <==> Retry(h, i, j))
            && (a.payment == b.payment <==> Retry(h, i, j))
  {
    hide Held;
    assert h[..i + 1][|h[..i + 1]| - 1] == h[i] && h[..j + 1][|h[..j + 1]| - 1] == h[j];
    if Retry(h, i, j) {
      HeldIsKept(h, i + 1, j + 1, h[i].intent);
    } else {
      var k := HeldComesFrom(h, i + 1, h[i].intent);
      var l := HeldComesFrom(h, j + 1, h[j].intent);
    }
  }

  /** Everything a screen has asked for. */
  ghost function Known(h: seq<Act>): (known: set<Approval>) {
    set n | 0 <= n < |h| && h[n].Pressed? :: ApprovalAt(h, n)
  }

  /** The work of a press is the work its intent names. */
  ghost predicate NamedRight(h: seq<Act>) {
    forall n :: 0 <= n < |h| && h[n].Pressed? ==> SameWork(h[n].named, h[n].intent.payables)
  }

  ghost predicate SameWork(named: seq<Id>, payables: set<Id>) { forall id :: id in named <==> id in payables }

  /** Two figures that settle the same: equal, or neither of them anything to settle. */
  predicate SameGross(p: Act, q: Act)
    requires p.Pressed? && q.Pressed?
  {
    p.gross == q.gross || (p.gross <= 0 && q.gross <= 0)
  }

  /** No work is approved again under another gross while the first one's ids are held. */
  predicate OneGross(h: seq<Act>) {
    forall i, j :: 0 <= i < j < |h| && h[i].Pressed? && h[j].Pressed? && Retry(h, i, j)
      ==> h[i].intent.payables == {} || SameGross(h[i], h[j])
  }

  /** Ids are minted once per approved fact exactly when no retry carries another gross: the
      gross is the one figure the write depends on that the intent leaves out. */
  lemma OnceMintedExactly(h: seq<Act>)
    requires Fresh(h) && NamedRight(h)
    ensures OnceMinted(Known(h)) <==> OneGross(h)
  {
    hide Held, ApprovalAt, Retry, SameWork, SameGross;
    forall i: nat, j: nat | i < j < |h| && h[i].Pressed? && h[j].Pressed?
      ensures var (a, b) := (ApprovalAt(h, i), ApprovalAt(h, j));
              a.settlement == b.settlement || a.payment == b.payment ==> Retry(h, i, j)
      ensures Retry(h, i, j) ==> ApprovalAt(h, i).settlement == ApprovalAt(h, j).settlement
      ensures Retry(h, i, j) ==>
                (Alike(ApprovalAt(h, i), ApprovalAt(h, j)) <==> h[i].intent.payables == {} || SameGross(h[i], h[j]))
      ensures Retry(h, i, j) ==>
                (Alike(ApprovalAt(h, j), ApprovalAt(h, i)) <==> h[i].intent.payables == {} || SameGross(h[i], h[j]))
    {
      SharedExactly(h, i, j);
      if Retry(h, i, j) { RetryIsAlike(h, i, j); }
    }
    if OneGross(h) {
      forall a, b | a in Known(h) && b in Known(h) && (a.settlement == b.settlement || a.payment == b.payment)
        ensures Alike(a, b)
      {
        var i: nat :| i < |h| && h[i].Pressed? && ApprovalAt(h, i) == a;
        var j: nat :| j < |h| && h[j].Pressed? && ApprovalAt(h, j) == b;
      }
    }
    if OnceMinted(Known(h)) {
      forall i, j | 0 <= i < j < |h| && h[i].Pressed? && h[j].Pressed? && Retry(h, i, j)
        ensures h[i].intent.payables == {} || SameGross(h[i], h[j])
      {
        assert ApprovalAt(h, i) in Known(h) && ApprovalAt(h, j) in Known(h);
      }
    }
  }

  lemma NamesNothing(named: seq<Id>, payables: set<Id>)
    requires SameWork(named, payables)
    ensures named == [] <==> payables == {}
  {
    if named != [] {
      var id: Id := named[0];
      assert id in named && id in payables;
    } else {
      assert forall id :: id in payables ==> id in named;
      assert payables == {};
    }
  }

  lemma RetryIsAlike(h: seq<Act>, i: nat, j: nat)
    requires Fresh(h) && NamedRight(h) && Retry(h, i, j)
    ensures var (a, b) := (ApprovalAt(h, i), ApprovalAt(h, j));
            && (Alike(a, b) <==> h[i].intent.payables == {} || SameGross(h[i], h[j]))
            && (Alike(b, a) <==> h[i].intent.payables == {} || SameGross(h[i], h[j]))
  {
    hide Held;
    SharedExactly(h, i, j);
    assert SameWork(h[i].named, h[i].intent.payables) && SameWork(h[j].named, h[j].intent.payables);
    assert SameNames(h[i].named, h[j].named) && SameNames(h[j].named, h[i].named);
    NamesNothing(h[i].named, h[i].intent.payables);
    NamesNothing(h[j].named, h[j].intent.payables);
  }

  /* ---- what a screen may do to be paid for right ---- */

  /** A run of the world from a farm that has seen nothing of these approvals. */
  ghost predicate Starts(h: seq<Act>, farm: Tenant, es: seq<Event>) {
    Sound(farm) && Unwritten(Known(h), farm) && EnabledRun(Known(h), World(farm, {}, {}, {}), es)
  }

  ghost function After(h: seq<Act>, farm: Tenant, es: seq<Event>): (t: Tenant)
    requires Starts(h, farm, es)
  {
    RunWorld(Known(h), World(farm, {}, {}, {}), es).farm
  }

  /** A run that leaves, under the ids of one press, something that press did not approve. */
  ghost predicate Breaks(h: seq<Act>, farm: Tenant, es: seq<Event>, n: int) {
    0 <= n < |h| && h[n].Pressed? && Starts(h, farm, es) && !Honoured(After(h, farm, es), ApprovalAt(h, n))
  }

  /** A screen that approves no work again at another gross pays once per fact, whatever
      happens to its requests. */
  lemma PressesPayOnce(h: seq<Act>, farm: Tenant, es: seq<Event>, n: nat)
    requires Fresh(h) && NamedRight(h) && OneGross(h) && n < |h| && h[n].Pressed? && Starts(h, farm, es)
    ensures var (t, a) := (After(h, farm, es), ApprovalAt(h, n));
            && AtMostOneSettlement(t.settlements, a.settlement) && AtMostOneRow(t.ledger, a.payment)
            && Honoured(t, a)
  {
    hide Sound, EnabledRun, RunWorld, Held, ApprovalAt, Fresh, NamedRight, OneGross, Unwritten, OnceMinted, Honoured;
    OnceMintedExactly(h);
    assert ApprovalAt(h, n) in Known(h);
    OneApprovalOnePayment(Known(h), farm, es, ApprovalAt(h, n));
  }

  /** And it is the only kind that does: no run leaves anything unapproved under the ids of a
      press exactly when no retry carries another gross. */
  lemma NeverBreaksExactly(h: seq<Act>)
    requires Fresh(h) && NamedRight(h)
    ensures (forall farm, es, n :: !Breaks(h, farm, es, n)) <==> OneGross(h)
  {
    hide Held, ApprovalAt, Retry, SameWork, Starts, After, Honoured, Fresh, NamedRight;
    if OneGross(h) {
      forall farm, es, n ensures !Breaks(h, farm, es, n) {
        if 0 <= n < |h| && h[n].Pressed? && Starts(h, farm, es) { PressesPayOnce(h, farm, es, n); }
      }
    } else {
      var i, j :| 0 <= i < j < |h| && h[i].Pressed? && h[j].Pressed? && Retry(h, i, j)
                  && h[i].intent.payables != {} && !SameGross(h[i], h[j]);
      RetrySharesWork(h, i, j);
      if h[i].gross > 0 { OtherGrossBreaks(h, i, j); } else { OtherGrossBreaks(h, j, i); }
    }
  }

  lemma RetrySharesWork(h: seq<Act>, i: nat, j: nat)
    requires Fresh(h) && NamedRight(h) && i < j < |h| && Retry(h, i, j) && h[i].intent.payables != {}
    ensures h[i].Pressed? && h[j].Pressed? && h[i].named != [] && h[j].named != []
    ensures ApprovalAt(h, i).settlement == ApprovalAt(h, j).settlement
  {
    hide Held, ApprovalAt;
    SharedExactly(h, i, j);
    assert SameWork(h[i].named, h[i].intent.payables) && SameWork(h[j].named, h[j].intent.payables);
    NamesNothing(h[i].named, h[i].intent.payables);
    NamesNothing(h[j].named, h[j].intent.payables);
  }

  /** Whichever of two presses arrives first has its gross settled under the other's id. */
  lemma OtherGrossBreaks(h: seq<Act>, p: nat, o: nat)
    requires p < |h| && o < |h| && h[p].Pressed? && h[o].Pressed? && h[p].named != []
    requires ApprovalAt(h, p).settlement == ApprovalAt(h, o).settlement && h[p].gross > 0 && h[p].gross != h[o].gross
    ensures exists farm, es :: Breaks(h, farm, es, o)
  {
    hide Held, Sound, Settle;
    var a := ApprovalAt(h, p);
    var farm := OneJob(a);
    var minted := Above(h, |h|);
    var at := Attempt(0, 0, 0, minted);
    OneJobSettles(a, at);
    var t := Settle(farm, SettleRequest(a, at), 0, minted).0;
    assert forall b :: b in Known(h) ==> b.payment < minted;
    SettleOnceSent(Known(h), farm, a, at);
    var es := [Send(a), ArriveSettle(a, at, true)];
    var s := t.settlements[0];
    assert s in t.settlements && !SettledAs(s, ApprovalAt(h, o));
    assert Breaks(h, farm, es, o);
  }

  /** A settlement request that leaves and arrives. */
  lemma SettleOnceSent(known: set<Approval>, farm: Tenant, a: Approval, at: Attempt)
    requires a in known && a.payables != [] && farm.ledger == [] && farm.settlements == []
    requires forall b :: b in known ==> at.minted != b.payment
    ensures Unwritten(known, farm)
    ensures var es := [Send(a), ArriveSettle(a, at, true)];
            && EnabledRun(known, World(farm, {}, {}, {}), es)
            && RunWorld(known, World(farm, {}, {}, {}), es).farm
               == Settle(farm, SettleRequest(a, at), at.today, at.minted).0
  {
    hide Settle;
    var w := World(farm, {}, {}, {});
    var e, f := Send(a), ArriveSettle(a, at, true);
    var x := Next(known, w, e);
    assert Enabled(known, x, f);
    var y := Next(known, x, f);
    assert EnabledRun(known, y, []) && RunWorld(known, y, []) == y;
    assert [f][1..] == [] && [e, f][1..] == [f];
    assert EnabledRun(known, x, [f]) && RunWorld(known, x, [f]) == y;
  }

  /** A farm with one record on it, of the work an approval names, worth its gross. */
  function OneJob(a: Approval): (t: Tenant)
    requires a.payables != []
  {
    var g := Some(a.gross);
    Tenant({}, [Record(a.payables[0], a.worker, [], 0, 0, 0, ONE, Explicit, g, g, a.gross, false)],
           Flat(0), [], [])
  }

  lemma OneJobSettles(a: Approval, at: Attempt)
    requires a.payables != [] && a.gross > 0 && at.from == at.to == 0
    ensures Sound(OneJob(a))
    ensures var (t, answer) := Settle(OneJob(a), SettleRequest(a, at), at.today, at.minted);
            && answer.Done? && |t.settlements| == 1
            && t.settlements[0].id == a.settlement && t.settlements[0].gross == a.gross
  {
    hide NewestFirstOf, NewSettlement;
    var t := OneJob(a);
    var r := t.records[0];
    assert Worth(ONE, a.gross) == a.gross;
    assert Sound(t);
    hide Sound, Worth, Pending;
    var l := LineOf(t.book, r);
    OnlyRecord(t, r, a.worker, 0, 0);
    assert l.amount == a.gross && [l][1..] == [] && Named([l], a.payables) == [l];
    assert Gross([l][..0]) == 0 && Gross([l]) == a.gross;
    SettleWrites(t, SettleRequest(a, at), at.today, at.minted);
    assert t.settlements == [];
  }

  lemma {:induction false} Above(h: seq<Act>, n: nat) returns (top: Id)
    requires n <= |h|
    ensures forall k :: 0 <= k < n && h[k].Pressed? ==> ApprovalAt(h, k).payment < top
  {
    hide Held;
    if n == 0 { return 0; }
    top := Above(h, n - 1);
    if h[n - 1].Pressed? && top <= ApprovalAt(h, n - 1).payment { top := ApprovalAt(h, n - 1).payment + 1; }
  }

  /** How it shows: once a settlement stands under the shared id, asking for another gross is
      a replay of the first, and nothing is written. */
  lemma StaleGrossReplayed(h: seq<Act>, i: nat, j: nat, t: Tenant, at: Attempt)
    requires Fresh(h) && Retry(h, i, j) && h[i].gross != h[j].gross && at.from <= at.to
    requires Honoured(t, ApprovalAt(h, i)) && HasId(t.settlements, ApprovalAt(h, i).settlement)
    ensures h[i].named != [] && !SameGross(h[i], h[j]) ==> !OnceMinted(Known(h))
    ensures var (u, answer) := Settle(t, SettleRequest(ApprovalAt(h, j), at), at.today, at.minted);
            u == t && answer.Replayed? && answer.value.gross == h[i].gross != h[j].gross
  {
    hide Held, Pending, Refusal, NewSettlement;
    SharedExactly(h, i, j);
    var a, b := ApprovalAt(h, i), ApprovalAt(h, j);
    assert a in Known(h) && b in Known(h);
    var s :| s in t.settlements && s.id == a.settlement;
    var k := IndexOf(t.settlements, b.settlement);
    assert k.Some?;
    assert t.settlements[k.value] in t.settlements;
  }

  /* ---- the object that keeps the ids ---- */

  datatype Slot = SettlementSlot | PaymentSlot | AdvanceSlot

  class Writer {
    var inFlight: bool
    var ids: map<(Intent, Slot), Id>
    ghost var history: seq<Act>

    ghost predicate Valid()
      reads this
    {
      forall i ::
        && ((i, SettlementSlot) in ids <==> i in Held(history)) && ((i, PaymentSlot) in ids <==> i in Held(history))
        && (i in Held(history) ==> Held(history)[i] == Ids(ids[(i, SettlementSlot)], ids[(i, PaymentSlot)]))
    }

    constructor ()
      ensures Valid() && history == [] && !inFlight
    {
      inFlight, ids, history := false, map[], [];
    }

    /** The id held for a slot of an intent, minted now if there is none. */
    method Mint(intent: Intent, slot: Slot, minted: Id) returns (id: Id)
      modifies this`ids
      ensures id == if (intent, slot) in old(ids) then old(ids)[(intent, slot)] else minted
      ensures ids == old(ids)[(intent, slot) := id]
    {
      if (intent, slot) in ids {
        id := ids[(intent, slot)];
      } else {
        id := minted;
        ids := ids[(intent, slot) := id];
      }
    }

    /** `run`, down to the first request: a press while another write is in flight does nothing,
        any other carries the ids held for its intent. */
    method Press(intent: Intent, named: seq<Id>, gross: Cents, minted: Ids) returns (a: Option<Approval>)
      requires Valid()
      modifies this
      ensures Valid() && inFlight
      ensures old(inFlight) ==> a == None && history == old(history) && ids == old(ids)
      ensures !old(inFlight) ==> history == old(history) + [Pressed(intent, named, gross, minted)]
                                 && a == Some(ApprovalAt(history, |history| - 1))
      ensures a.Some? ==> a.value.worker == intent.worker && a.value.payables == named && a.value.gross == gross
                          && a.value.cents == intent.cents
    {
      if inFlight { return None; }
      inFlight := true;
      ghost var was := history;
      history := history + [Pressed(intent, named, gross, minted)];
      assert history[..|history| - 1] == was && history[..|history|] == history;
      var payment := Mint(intent, PaymentSlot, minted.payment);
      var settlement := Mint(intent, SettlementSlot, minted.settlement);
      a := Some(Approval(settlement, payment, intent.worker, named, gross, intent.cents));
    }

    /** `retire`: every slot of one intent is forgotten, and no other. */
    method Retire(intent: Intent)
      requires Valid()
      modifies this`ids, this`history
      ensures Valid() && history == old(history) + [Retired(intent)]
      ensures ids == map k | k in old(ids) && k.0 != intent :: old(ids)[k]
    {
      var keys := ids.Keys;
      while keys != {}
        invariant keys <= old(ids).Keys && history == old(history)
        invariant forall k :: k in ids <==> k in old(ids) && (k in keys || k.0 != intent)
        invariant forall k :: k in ids ==> ids[k] == old(ids)[k]
        decreases |keys|
      {
        var key :| key in keys;
        keys := keys - {key};
        if key.0 == intent { ids := ids - {key}; }
      }
      history := history + [Retired(intent)];
      assert history[..|history| - 1] == old(history);
    }

    /** The end of `run`: what landed is spent, what failed keeps its ids for the retry. */
    method Finish(intent: Intent, landed: bool)
      requires Valid()
      modifies this
      ensures Valid() && !inFlight && history == old(history) + if landed then [Retired(intent)] else []
    {
      if landed { Retire(intent); }
      inFlight := false;
    }
  }
}
