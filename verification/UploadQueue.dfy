/** Weighings kept on the device until they reach the server: the store and the upload loop
    of one tab, with nobody else at the store. */
module UploadQueue {
  import opened Text
  import opened PriceRules
  import Amount

  /** The work record the phone typed; its id is minted there. */
  datatype Weighing = Weighing(id: Id, worker: Id, plots: seq<Id>, day: Day, quantity: Amount.Exact)

  datatype Row = Row(id: Id, farm: Id, input: Weighing, createdAt: int, error: Option<string>)

  /** How the turn of one weighing ended: accepted and deleted; answered with an error, and
      whether the store would then take the flag; or any other failure, a delete that did not
      go through among them. Status 0 is a network that failed. */
  datatype Outcome = Accepted | ApiError(status: int, message: string, flagged: bool) | OtherError

  predicate IsRetryable(o: Outcome)
    requires !o.Accepted?
  {
    o.OtherError? || o.status == 0 || o.status == 401 || o.status == 408 || o.status == 429 || o.status >= 500
  }

  predicate Goes(net: Id -> Outcome, r: Row) { r.error.None? && net(r.id).Accepted? }

  predicate Waits(net: Id -> Outcome, r: Row) { r.error.None? && !net(r.id).Accepted? && IsRetryable(net(r.id)) }

  predicate Turned(net: Id -> Outcome, r: Row) { r.error.None? && !net(r.id).Accepted? && !IsRetryable(net(r.id)) }

  predicate Refused(net: Id -> Outcome, r: Row) { Turned(net, r) && net(r.id).flagged }

  /** A refusal that cannot be written down ends the upload with an error of its own. */
  predicate Throws(net: Id -> Outcome, r: Row) { Turned(net, r) && !net(r.id).flagged }

  predicate Stops(net: Id -> Outcome, r: Row) { Waits(net, r) || Throws(net, r) }

  datatype FlushResult = FlushResult(sent: nat, refused: nat, stopped: bool)

  /* ---- the listing of one farm ---- */

  type Store = map<Id, Row>

  ghost predicate Keyed(rows: Store) { forall id :: id in rows ==> rows[id].id == id }

  predicate Earlier(a: Row, b: Row) { a.createdAt < b.createdAt || (a.createdAt == b.createdAt && a.id < b.id) }

  ghost predicate Ordered(list: seq<Row>) { forall i, j :: 0 <= i < j < |list| ==> Earlier(list[i], list[j]) }

  predicate Stored(rows: Store, farm: Id, r: Row) { r.id in rows && rows[r.id] == r && r.farm == farm }

  /** A farm's rows, oldest first; rows of one instant come by id, as the index yields them. */
  ghost predicate IsListing(rows: Store, farm: Id, list: seq<Row>) {
    Ordered(list) && forall r :: r in list <==> Stored(rows, farm, r)
  }

  lemma LastIsLatest(list: seq<Row>, r: Row)
    requires Ordered(list) && r in list
    ensures var last := list[|list| - 1]; r == last || Earlier(r, last)
  {
    var i :| 0 <= i < |list| && list[i] == r;
  }

  lemma HasRow(list: seq<Row>)
    requires list != []
    ensures exists r :: r in list
  {
    assert list[0] in list;
  }

  /** There is one listing. */
  lemma {:induction false} ListingUnique(a: seq<Row>, b: seq<Row>)
    requires Ordered(a) && Ordered(b) && forall r :: r in a <==> r in b
    ensures a == b
  {
    if a == [] {
      if b != [] { HasRow(b); }
    } else {
      HasRow(a);
      var n, m := |a| - 1, |b| - 1;
      assert a[n] in a && b[m] in b;
      LastIsLatest(a, b[m]);
      LastIsLatest(b, a[n]);
      forall r ensures r in a[..n] <==> r in b[..m] {
        assert r in a <==> r in a[..n] || r == a[n];
        assert r in b <==> r in b[..m] || r == b[m];
      }
      ListingUnique(a[..n], b[..m]);
    }
  }

  /** A listing is in the order the weighings were typed, and of one instant by id; it holds the
      rows the farm has on the device, once each, and nothing else. */
  lemma ListingExactly(rows: Store, farm: Id, list: seq<Row>, r: Row)
    requires IsListing(rows, farm, list)
    ensures forall i, j :: 0 <= i < j < |list| ==>
              || list[i].createdAt < list[j].createdAt
              || (list[i].createdAt == list[j].createdAt && list[i].id < list[j].id)
    ensures r in list <==> r.farm == farm && r.id in rows && rows[r.id] == r
  {
    assert forall i, j :: 0 <= i < j < |list| ==> Earlier(list[i], list[j]);
  }

  /* ---- what one flush does ---- */

  /** Rows tried before the first that stops the upload, or all of them. */
  function Reach(net: Id -> Outcome, list: seq<Row>): (n: nat)
    ensures n <= |list|
    ensures forall i :: 0 <= i < n ==> !Stops(net, list[i])
    ensures n < |list| ==> Stops(net, list[n])
  {
    if list == [] || Stops(net, list[0]) then 0
    else
      var n := Reach(net, list[1..]);
      assert forall i :: 1 <= i < n + 1 ==> list[i] == list[1..][i - 1];
      n + 1
  }

  function CountSent(net: Id -> Outcome, list: seq<Row>): (n: nat) {
    if list == [] then 0 else CountSent(net, list[..|list| - 1]) + if Goes(net, list[|list| - 1]) then 1 else 0
  }

  function CountRefused(net: Id -> Outcome, list: seq<Row>): (n: nat) {
    if list == [] then 0 else CountRefused(net, list[..|list| - 1]) + if Refused(net, list[|list| - 1]) then 1 else 0
  }

  /** The ids put on the network, in order. */
  function Tried(list: seq<Row>): (ids: seq<Id>) {
    if list == [] then []
    else
      var r := list[|list| - 1];
      Tried(list[..|list| - 1]) + if r.error.None? then [r.id] else []
  }

  function MessageOf(o: Outcome): (m: string)
    requires o.ApiError?
  {
    o.message
  }

  /** Rows accepted are gone, rows refused are flagged with the server's reason, and every
      other row — past the stop, flagged before, or of another farm — is as it was. */
  ghost predicate Effect(before: Store, net: Id -> Outcome, done: seq<Row>, after: Store) {
    && (forall id :: id in after <==> id in before && !(exists r :: r in done && r.id == id && Goes(net, r)))
    && (forall id :: id in after ==>
          after[id] == if before[id] in done && Refused(net, before[id])
                       then before[id].(error := Some(MessageOf(net(before[id].id)))) else before[id])
  }

  /** The result is none when the upload ended with an error. */
  ghost predicate Flushed(before: Store, farm: Id, net: Id -> Outcome, after: Store, r: Option<FlushResult>,
                          tried: seq<Id>) {
    exists list :: FlushedOver(before, farm, net, after, r, tried, list)
  }

  ghost predicate FlushedOver(before: Store, farm: Id, net: Id -> Outcome, after: Store, r: Option<FlushResult>,
                              tried: seq<Id>, list: seq<Row>) {
    && IsListing(before, farm, list)
    && var n := Reach(net, list);
       && Effect(before, net, list[..n], after)
       && r == (if n < |list| && Throws(net, list[n]) then None
                else Some(FlushResult(CountSent(net, list[..n]), CountRefused(net, list[..n]), n < |list|)))
       && tried == Tried(if n < |list| then list[..n + 1] else list)
  }

  ghost predicate Distinct(ids: seq<Id>) { forall i, j :: 0 <= i < j < |ids| ==> ids[i] != ids[j] }

  function Drop(ids: seq<Id>, id: Id): (out: seq<Id>)
    ensures forall x :: x in out <==> x in ids && x != id
  {
    if ids == [] then []
    else
      assert ids == [ids[0]] + ids[1..];
      if ids[0] == id then Drop(ids[1..], id) else [ids[0]] + Drop(ids[1..], id)
  }

  lemma {:induction false} DropDistinct(ids: seq<Id>, id: Id)
    requires Distinct(ids)
    ensures Distinct(Drop(ids, id))
  {
    if ids != [] {
      DropDistinct(ids[1..], id);
      var rest := Drop(ids[1..], id);
      forall j | 0 <= j < |rest| ensures rest[j] != ids[0] {
        assert rest[j] in rest;
        var k :| 0 <= k < |ids[1..]| && ids[1..][k] == rest[j];
        assert ids[k + 1] == rest[j];
      }
    }
  }

  class Device {
    var rows: Store
    var keys: seq<Id>   // the primary keys in use, in no particular order

    ghost predicate Valid()
      reads this
    {
      Keyed(rows) && Distinct(keys) && forall id :: id in keys <==> id in rows
    }

    constructor ()
      ensures Valid() && rows == map[]
    {
      rows, keys := map[], [];
    }

    method PutPending(p: Row)
      requires Valid()
      modifies this
      ensures Valid() && rows == old(rows)[p.id := p]
    {
      if p.id !in rows { keys := keys + [p.id]; }
      rows := rows[p.id := p];
    }

    method Enqueue(id: Id, farm: Id, input: Weighing, now: int)
      requires Valid()
      modifies this
      ensures Valid() && rows == old(rows)[id := Row(id, farm, input, now, None)]
    {
      PutPending(Row(id, farm, input, now, None));
    }

    method DeletePending(id: Id)
      requires Valid()
      modifies this
      ensures Valid() && rows == old(rows) - {id}
    {
      DropDistinct(keys, id);
      keys := Drop(keys, id);
      rows := rows - {id};
    }

    /** `listPending`: the farm's rows, sorted in one by one. */
    method ListPending(farm: Id) returns (list: seq<Row>)
      requires Valid()
      ensures IsListing(rows, farm, list)
    {
      list := [];
      for i := 0 to |keys|
        invariant Ordered(list)
        invariant forall r :: r in list <==> Stored(rows, farm, r) && r.id in keys[..i]
      {
        assert keys[..i + 1] == keys[..i] + [keys[i]];
        assert keys[i] in keys;
        var row := rows[keys[i]];
        if row.farm == farm { list := SortIn(list, row); }
      }
      assert keys[..|keys|] == keys;
    }

    static method SortIn(list: seq<Row>, r: Row) returns (out: seq<Row>)
      requires Ordered(list) && forall x :: x in list ==> x.id != r.id
      ensures Ordered(out) && forall x :: x in out <==> x in list || x == r
    {
      var i := 0;
      while i < |list| && Earlier(list[i], r)
        invariant i <= |list| && forall j :: 0 <= j < i ==> Earlier(list[j], r)
      {
        i := i + 1;
      }
      if i < |list| { assert list[i] in list; }
      out := list[..i] + [r] + list[i..];
      assert list == list[..i] + list[i..];
      forall a, b | 0 <= a < b < |out| ensures Earlier(out[a], out[b]) {
        if b > i && a < i { assert Earlier(list[a], list[b - 1]); }
        if a == i { assert i == b - 1 || Earlier(list[i], list[b - 1]); }
      }
    }

    /** `flushPending`: stop at the first failure worth retrying; a refusal only flags its row. */
    method FlushPending(farm: Id, net: Id -> Outcome) returns (answer: Option<FlushResult>, tried: seq<Id>)
      requires Valid()
      modifies this
      ensures Valid() && Flushed(old(rows), farm, net, rows, answer, tried)
    {
      hide Effect, IsListing, Keyed, Distinct, Reach;
      var list := ListPending(farm);
      EffectNone(rows, net);
      assert list[..0] == [];
      var result := FlushResult(0, 0, false);
      tried := [];
      var i := 0;
      while i < |list| && !result.stopped
        invariant i <= |list| && Valid()
        invariant forall j :: 0 <= j < i ==> !Stops(net, list[j])
        invariant result.stopped ==> i < |list| && Waits(net, list[i])
        invariant Effect(old(rows), net, list[..i], rows)
        invariant result.sent == CountSent(net, list[..i]) && result.refused == CountRefused(net, list[..i])
        invariant tried == Tried(list[..if result.stopped then i + 1 else i])
        decreases |list| - i + if result.stopped then 0 else 1
      {
        var p := list[i];
        Turn(old(rows), farm, net, list, i, rows);
        assert list[..i + 1][..i] == list[..i];
        if p.error.Some? {
          i := i + 1;
          continue;
        }
        tried := tried + [p.id];
        var o := net(p.id);
        if o.Accepted? {
          DeletePending(p.id);
          result := result.(sent := result.sent + 1);
          i := i + 1;
        } else if IsRetryable(o) {
          result := result.(stopped := true);
        } else if !o.flagged {
          ReachIs(net, list, i);
          assert FlushedOver(old(rows), farm, net, rows, None, tried, list);
          return None, tried;
        } else {
          PutPending(p.(error := Some(o.message)));
          result := result.(refused := result.refused + 1);
          i := i + 1;
        }
      }
      ReachIs(net, list, i);
      assert list[..|list|] == list;
      assert FlushedOver(old(rows), farm, net, rows, Some(result), tried, list);
      answer := Some(result);
    }
  }

  lemma {:induction false} ReachIs(net: Id -> Outcome, list: seq<Row>, i: nat)
    requires i <= |list| && (forall j :: 0 <= j < i ==> !Stops(net, list[j])) && (i < |list| ==> Stops(net, list[i]))
    ensures Reach(net, list) == i
  {
  }

  lemma EffectNone(before: Store, net: Id -> Outcome)
    ensures Effect(before, net, [], before)
  {
  }

  /** One row's turn in the loop, by how its sending ended. */
  lemma Turn(before: Store, farm: Id, net: Id -> Outcome, list: seq<Row>, i: nat, now: Store)
    requires Keyed(before) && IsListing(before, farm, list) && i < |list| && Effect(before, net, list[..i], now)
    ensures var p := list[i];
            && p.id in now && now[p.id] == p && p.id in before && before[p.id] == p
            && (p.error.Some? ==> Effect(before, net, list[..i + 1], now))
            && (Goes(net, p) ==> Effect(before, net, list[..i + 1], now - {p.id}))
            && (Refused(net, p) ==>
                  Effect(before, net, list[..i + 1], now[p.id := p.(error := Some(MessageOf(net(p.id))))]))
  {
    hide IsRetryable;
    var p := list[i];
    assert p in list && Stored(before, farm, p);
    forall r | r in list[..i] ensures r.id != p.id {
      var j :| 0 <= j < i && list[j] == r;
      assert r in list && Earlier(r, p) && Stored(before, farm, r);
    }
    assert list[..i + 1] == list[..i] + [p];
    assert forall r :: r in list[..i + 1] <==> r in list[..i] || r == p;
  }

  /* ---- what that means for the weighings ---- */

  predicate Waiting(rows: Store, farm: Id, id: Id) { id in rows && rows[id].farm == farm && rows[id].error.None? }

  /** Stopped by a failure worth retrying, or ended by an error. */
  predicate Interrupted(r: Option<FlushResult>) { r.None? || r.value.stopped }

  /** A flush touches nothing it did not count: not another farm's rows, not a row flagged
      before, and no row waits after an upload that ran to its end. */
  lemma FlushSettles(before: Store, farm: Id, net: Id -> Outcome, after: Store, r: Option<FlushResult>, tried: seq<Id>)
    requires Keyed(before) && Flushed(before, farm, net, after, r, tried)
    ensures forall id :: id in before && (before[id].farm != farm || before[id].error.Some?)
              ==> id in after && after[id] == before[id]
    ensures forall id :: Waiting(after, farm, id) ==> Waiting(before, farm, id) && after[id] == before[id]
    ensures !Interrupted(r) ==> forall id :: !Waiting(after, farm, id)
    ensures Keyed(after)
  {
    hide IsRetryable, CountSent, CountRefused, Tried;
    var list :| FlushedOver(before, farm, net, after, r, tried, list);
    var n := Reach(net, list);
    var done := list[..n];
    assert forall x :: x in done ==> x in list;
    if !Interrupted(r) {
      assert done == list;
      forall id | id in after ensures !Waiting(after, farm, id) {
        var row := before[id];
        if row.farm == farm && row.error.None? {
          assert Stored(before, farm, row) && row in list;
          var k :| 0 <= k < |list| && list[k] == row;
          assert Goes(net, row) || Refused(net, row);
        }
      }
    }
  }

  /* ---- which answers stop a flush ---- */

  /** The send failed with no status at all, or the server was unreachable, had the session
      expired, timed out, was too busy, or broke. */
  ghost predicate HeldBack(o: Outcome) {
    o.OtherError? || (o.ApiError? && (o.status in {0, 401, 408, 429} || o.status >= 500))
  }

  /** Any other refusal, written on its row. */
  ghost predicate Answered(o: Outcome) {
    o.Accepted? || (o.ApiError? && o.status !in {0, 401, 408, 429} && o.status < 500 && o.flagged)
  }

  ghost predicate FirstUnanswered(net: Id -> Outcome, list: seq<Row>, i: int) {
    && 0 <= i < |list| && list[i].error.None? && !Answered(net(list[i].id))
    && forall j :: 0 <= j < i && list[j].error.None? ==> Answered(net(list[j].id))
  }

  /** A flush goes row by row, oldest first, up to the first answer that is neither an acceptance
      nor a refusal it could write down: it stops there for a row held back, and ends with an
      error for a refusal that could not be written. */
  lemma FlushStopsExactly(before: Store, farm: Id, net: Id -> Outcome, after: Store, answer: Option<FlushResult>,
                          tried: seq<Id>, list: seq<Row>)
    requires Flushed(before, farm, net, after, answer, tried) && IsListing(before, farm, list)
    ensures answer.Some? && answer.value.stopped
       <==> exists i :: FirstUnanswered(net, list, i) && HeldBack(net(list[i].id))
    ensures answer.None? <==> exists i :: FirstUnanswered(net, list, i) && !HeldBack(net(list[i].id))
    ensures forall i :: FirstUnanswered(net, list, i) ==> tried == Tried(list[..i + 1])
    ensures (forall i :: !FirstUnanswered(net, list, i)) ==> tried == Tried(list)
  {
    hide IsListing, Effect, Tried, CountSent, CountRefused;
    var seen :| FlushedOver(before, farm, net, after, answer, tried, seen);
    assert seen == list by { OneListing(before, farm, seen, list); }
    var n := Reach(net, list);
    forall r: Row ensures Stops(net, r) <==> r.error.None? && !Answered(net(r.id)) {
      OutcomeBySort(net, r);
    }
    if n < |list| {
      OutcomeBySort(net, list[n]);
      assert FirstUnanswered(net, list, n);
    }
    assert forall i :: FirstUnanswered(net, list, i) ==> i == n;
  }

  lemma OneListing(before: Store, farm: Id, a: seq<Row>, b: seq<Row>)
    requires IsListing(before, farm, a) && IsListing(before, farm, b)
    ensures a == b
  {
    ListingUnique(a, b);
  }

  /** What the answer to one row means, status by status. */
  lemma OutcomeBySort(net: Id -> Outcome, r: Row)
    ensures Waits(net, r) <==> r.error.None? && HeldBack(net(r.id))
    ensures Stops(net, r) <==> r.error.None? && !Answered(net(r.id))
    ensures Throws(net, r) <==> r.error.None? && !Answered(net(r.id)) && !HeldBack(net(r.id))
    ensures Refused(net, r) <==> r.error.None? && Answered(net(r.id)) && !net(r.id).Accepted?
  {
  }

  /** A client error about the weighing itself, with the flag written; or an acceptance. */
  ghost predicate GoesThrough(o: Outcome) {
    o.Accepted? || (o.ApiError? && 400 <= o.status < 500 && o.status !in {401, 408, 429} && o.flagged)
  }

  /** One bad weighing holds nothing up: when every answer is an acceptance or a refusal of the
      data, the flush runs to its end, every accepted row is gone, every refused row carries the
      server's reason, and every row that was waiting was tried. */
  lemma RefusalsHoldNothingUp(before: Store, farm: Id, net: Id -> Outcome, after: Store, answer: Option<FlushResult>,
                              tried: seq<Id>, id: Id)
    requires Keyed(before) && Flushed(before, farm, net, after, answer, tried)
    requires forall x :: Waiting(before, farm, x) ==> GoesThrough(net(x))
    ensures answer.Some? && !answer.value.stopped
    ensures Waiting(before, farm, id) ==> id in tried
    ensures Waiting(before, farm, id) && net(id).Accepted? ==> id !in after
    ensures Waiting(before, farm, id) && net(id).ApiError? ==>
              id in after && after[id] == before[id].(error := Some(net(id).message))
  {
    hide CountSent, CountRefused, Tried, Ordered;
    var list :| FlushedOver(before, farm, net, after, answer, tried, list);
    forall r | r in list ensures !Stops(net, r) {
      assert Stored(before, farm, r);
      OutcomeBySort(net, r);
    }
    assert forall j :: 0 <= j < |list| ==> list[j] in list;
    assert Reach(net, list) == |list| && list[..|list|] == list;
    if Waiting(before, farm, id) {
      var r := before[id];
      assert Stored(before, farm, r) && r in list;
      TriedAll(list, r);
      OutcomeBySort(net, r);
      forall x | x in list && x.id == id ensures x == r { assert Stored(before, farm, x); }
      assert net(id).Accepted? ==> Goes(net, r);
    }
  }

  /** What goes on the network: the rows without a flag, in the order of the listing. */
  lemma TriedExactly(list: seq<Row>, r: Row)
    ensures Tried(list + [r]) == Tried(list) + (if r.error.None? then [r.id] else []) && Tried([]) == []
  {
    assert (list + [r])[..|list|] == list;
  }

  lemma {:induction false} TriedAll(list: seq<Row>, r: Row)
    requires r in list && r.error.None?
    ensures r.id in Tried(list)
  {
    var n := |list| - 1;
    assert list == list[..n] + [list[n]];
    if r != list[n] { TriedAll(list[..n], r); }
  }

  function SentIds(net: Id -> Outcome, done: seq<Row>): (ids: set<Id>) { set r | r in done && Goes(net, r) :: r.id }

  function RefusedIds(net: Id -> Outcome, done: seq<Row>): (ids: set<Id>) {
    set r | r in done && Refused(net, r) :: r.id
  }

  lemma OneMoreId(net: Id -> Outcome, front: seq<Row>, last: Row)
    ensures SentIds(net, front + [last]) == SentIds(net, front) + if Goes(net, last) then {last.id} else {}
    ensures RefusedIds(net, front + [last]) == RefusedIds(net, front) + if Refused(net, last) then {last.id} else {}
  {
    hide Goes, Refused;
    assert forall r :: r in front + [last] <==> r in front || r == last;
  }

  /** The numbers reported are the rows they claim, each counted once. */
  lemma {:induction false} CountsAreSets(net: Id -> Outcome, done: seq<Row>)
    requires forall i, j :: 0 <= i < j < |done| ==> done[i].id != done[j].id
    ensures CountSent(net, done) == |SentIds(net, done)| && CountRefused(net, done) == |RefusedIds(net, done)|
  {
    hide Goes, Refused, SentIds, RefusedIds;
    if done == [] {
      NoIds(net);
    } else {
      var n := |done| - 1;
      var front, last := done[..n], done[n];
      CountsAreSets(net, front);
      assert done == front + [last];
      OneMoreId(net, front, last);
      forall r | r in front ensures r.id != last.id { var k :| 0 <= k < n && done[k] == r; }
      NewId(net, front, last.id);
    }
  }

  lemma NoIds(net: Id -> Outcome)
    ensures SentIds(net, []) == {} && RefusedIds(net, []) == {}
  {
  }

  lemma NewId(net: Id -> Outcome, front: seq<Row>, id: Id)
    requires forall r :: r in front ==> r.id != id
    ensures id !in SentIds(net, front) && id !in RefusedIds(net, front)
  {
    hide Goes, Refused;
  }

  lemma ListedOnce(before: Store, farm: Id, list: seq<Row>, n: nat)
    requires Keyed(before) && IsListing(before, farm, list) && n <= |list|
    ensures forall i, j :: 0 <= i < j < n ==> list[..n][i].id != list[..n][j].id
    ensures forall r :: r in list[..n] ==> r.id in before && before[r.id] == r
  {
    forall r | r in list[..n] ensures r.id in before && before[r.id] == r {
      assert r in list && Stored(before, farm, r);
    }
    forall i, j | 0 <= i < j < n ensures list[..n][i].id != list[..n][j].id {
      assert list[i] in list && list[j] in list;
      assert Stored(before, farm, list[i]) && Stored(before, farm, list[j]) && Earlier(list[i], list[j]);
    }
  }

  lemma EffectIds(before: Store, net: Id -> Outcome, done: seq<Row>, after: Store)
    requires Effect(before, net, done, after) && Keyed(before)
    requires forall r :: r in done ==> r.id in before && before[r.id] == r
    ensures before.Keys - after.Keys == SentIds(net, done)
    ensures (set id | id in after && after[id] != before[id]) == RefusedIds(net, done)
  {
    hide IsRetryable;
    forall id ensures id in before.Keys - after.Keys <==> id in SentIds(net, done) {
      if id in SentIds(net, done) { var r :| r in done && Goes(net, r) && r.id == id; }
      if id in before.Keys - after.Keys { var r :| r in done && r.id == id && Goes(net, r); }
    }
    forall id ensures id in after && after[id] != before[id] <==> id in RefusedIds(net, done) {
      if id in RefusedIds(net, done) {
        var r :| r in done && Refused(net, r) && r.id == id;
        forall x | x in done && x.id == id ensures !Goes(net, x) { assert x == r; }
      }
    }
  }

  /** The numbers a flush reports are the rows it deleted and the rows it flagged. */
  lemma CountsAreTrue(before: Store, farm: Id, net: Id -> Outcome, after: Store, r: FlushResult, tried: seq<Id>)
    requires Keyed(before) && Flushed(before, farm, net, after, Some(r), tried)
    ensures r.sent == |before.Keys - after.Keys|
    ensures r.refused == |set id | id in after && after[id] != before[id]|
  {
    hide Effect, IsListing, Tried, CountSent, CountRefused, SentIds, RefusedIds, Throws;
    var list :| FlushedOver(before, farm, net, after, Some(r), tried, list);
    var n := Reach(net, list);
    ListedOnce(before, farm, list, n);
    CountsAreSets(net, list[..n]);
    EffectIds(before, net, list[..n], after);
  }

  /** A run of flushes with nothing enqueued meanwhile. */
  ghost predicate FlushRun(states: seq<Store>, farm: Id, nets: seq<Id -> Outcome>, stopped: seq<bool>) {
    && |states| == |nets| + 1 && |stopped| == |nets|
    && Keyed(states[0])
    && forall i :: 0 <= i < |nets| ==> OneFlush(states[i], farm, nets[i], states[i + 1], stopped[i])
  }

  ghost predicate OneFlush(before: Store, farm: Id, net: Id -> Outcome, after: Store, stopped: bool) {
    exists r, tried :: Flushed(before, farm, net, after, r, tried) && Interrupted(r) == stopped
  }

  function CountStopped(stopped: seq<bool>): (n: nat) {
    if stopped == [] then 0 else CountStopped(stopped[..|stopped| - 1]) + if stopped[|stopped| - 1] then 1 else 0
  }

  /** Each interrupted flush spends one failure, so k failures leave nothing waiting after
      k + 1 flushes. */
  lemma {:induction false} FailuresRunOut(states: seq<Store>, farm: Id, nets: seq<Id -> Outcome>, stopped: seq<bool>)
    requires FlushRun(states, farm, nets, stopped)
    ensures Keyed(states[|nets|])
    ensures CountStopped(stopped) < |nets| ==> forall id :: !Waiting(states[|nets|], farm, id)
  {
    if nets != [] {
      var n := |nets| - 1;
      assert OneFlush(states[n], farm, nets[n], states[n + 1], stopped[n]);
      forall i | 0 <= i < n
        ensures OneFlush(states[..n + 1][i], farm, nets[..n][i], states[..n + 1][i + 1], stopped[..n][i])
      {
        assert OneFlush(states[i], farm, nets[i], states[i + 1], stopped[i]);
      }
      FailuresRunOut(states[..n + 1], farm, nets[..n], stopped[..n]);
      var r, tried :| Flushed(states[n], farm, nets[n], states[n + 1], r, tried) && Interrupted(r) == stopped[n];
      FlushSettles(states[n], farm, nets[n], states[n + 1], r, tried);
    }
  }
}
