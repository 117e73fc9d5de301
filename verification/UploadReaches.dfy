/** The upload gets there: left to itself and answered, a tab brings every waiting row of its farm
    to the server or to a person's eyes, whatever the state it starts in. */
module UploadReaches {
  import opened Text
  import opened PriceRules
  import opened UploadQueue
  import opened UploadProtocol
  import opened UploadFiling

  /** What the server says of each weighing: taken, or why not. */
  type Verdicts = Id -> Option<string>

  predicate Idle(w: World, tab: Id) { tab in w.tabs && w.tabs[tab].upload.None? }

  ghost predicate IdsApart(list: seq<Row>) { forall i, j :: 0 <= i < j < |list| ==> list[i].id != list[j].id }

  /** A tab between two rows, with these still to go. */
  predicate Turning(w: World, tab: Id, farm: Id, rest: seq<Row>) {
    tab in w.tabs && w.tabs[tab].upload == Some(Upload(farm, rest, Looping))
  }

  /** What becomes of a row when its turn comes. */
  ghost predicate TurnTaken(w: World, v: World, session: Id, r: Row, says: Verdicts) {
    && v.taken == w.taken && v.removed == w.removed && w.server.Keys <= v.server.Keys
    && (r.error.Some? ==> v.rows == w.rows)
    && (r.error.None? && says(r.id).None? ==> v.rows == w.rows - {r.id} && Key(session, r.id) in v.server)
    && (r.error.None? && says(r.id).Some? ==> v.rows == w.rows[r.id := r.(error := says(r.id))])
  }

  lemma RunOfThree(w: World, e: Event, f: Event, g: Event, x: World, y: World)
    requires Enabled(w, e) && x == Next(w, e)
    requires Enabled(x, f) && y == Next(x, f)
    requires Enabled(y, g)
    ensures EnabledRun(w, [e, f, g]) && Run(w, [e, f, g]) == Next(y, g)
  {
    hide Enabled, Next;
    RunCons(y, g, []);
    RunCons(x, f, [g]);
    RunCons(w, e, [f, g]);
    assert [g] + [] == [g] && [f] + [g] == [f, g] && [e] + [f, g] == [e, f, g];
  }

  lemma SentAndArrived(w: World, tab: Id, farm: Id, rest: seq<Row>) returns (x: World, y: World)
    requires Turning(w, tab, farm, rest) && rest != [] && rest[0].error.None? && rest[0].id == rest[0].input.id
    ensures var session := w.tabs[tab].session;
            var post := Post(session, rest[0].input);
            && Enabled(w, Send(tab)) && x == Next(w, Send(tab))
            && Enabled(x, Arrive(post, true)) && y == Next(x, Arrive(post, true))
            && y.rows == w.rows && y.taken == w.taken && y.removed == w.removed && w.server.Keys <= y.server.Keys
            && Key(session, rest[0].id) in y.server
            && y.tabs == w.tabs[tab := Tab(session, Some(Upload(farm, rest[1..], Awaiting(rest[0], session, false))))]
  {
    var session := w.tabs[tab].session;
    x := Next(w, Send(tab));
    y := Next(x, Arrive(Post(session, rest[0].input), true));
  }

  lemma AcceptedTurn(w: World, tab: Id, farm: Id, rest: seq<Row>, says: Verdicts)
    requires Turning(w, tab, farm, rest) && rest != [] && rest[0].error.None? && says(rest[0].id).None?
    requires rest[0].id == rest[0].input.id
    ensures var session := w.tabs[tab].session;
            var es := [Send(tab), Arrive(Post(session, rest[0].input), true), Answered(tab), Delete(tab)];
            && EnabledRun(w, es) && Turning(Run(w, es), tab, farm, rest[1..])
            && Run(w, es).tabs[tab].session == session && TurnTaken(w, Run(w, es), session, rest[0], says)
  {
    var post := Post(w.tabs[tab].session, rest[0].input);
    var x, y := SentAndArrived(w, tab, farm, rest);
    var z := Next(y, Answered(tab));
    assert UploadOf(z, tab) == Upload(farm, rest[1..], Deleting(rest[0]));
    RunOfFour(w, Send(tab), Arrive(post, true), Answered(tab), Delete(tab), x, y, z);
  }

  lemma RefusedTurn(w: World, tab: Id, farm: Id, rest: seq<Row>, says: Verdicts)
    requires Turning(w, tab, farm, rest) && rest != [] && rest[0].error.None? && says(rest[0].id).Some?
    ensures var session := w.tabs[tab].session;
            var es := [Send(tab), Declined(tab, says(rest[0].id).value), Flag(tab)];
            && EnabledRun(w, es) && Turning(Run(w, es), tab, farm, rest[1..])
            && Run(w, es).tabs[tab].session == session && TurnTaken(w, Run(w, es), session, rest[0], says)
  {
    var session, why := w.tabs[tab].session, says(rest[0].id).value;
    var x := Next(w, Send(tab));
    assert UploadOf(x, tab) == Upload(farm, rest[1..], Awaiting(rest[0], session, false));
    var y := Next(x, Declined(tab, why));
    assert UploadOf(y, tab) == Upload(farm, rest[1..], Flagging(rest[0], why));
    RunOfThree(w, Send(tab), Declined(tab, why), Flag(tab), x, y);
  }

  lemma FlaggedTurn(w: World, tab: Id, farm: Id, rest: seq<Row>, says: Verdicts)
    requires Turning(w, tab, farm, rest) && rest != [] && rest[0].error.Some?
    ensures var es := [Skip(tab)];
            && EnabledRun(w, es) && Turning(Run(w, es), tab, farm, rest[1..])
            && Run(w, es).tabs[tab].session == w.tabs[tab].session
            && TurnTaken(w, Run(w, es), w.tabs[tab].session, rest[0], says)
  {
    RunCons(w, Skip(tab), []);
    assert [Skip(tab)] + [] == [Skip(tab)];
  }

  lemma OneTurn(w: World, tab: Id, farm: Id, rest: seq<Row>, says: Verdicts) returns (es: seq<Event>)
    requires Turning(w, tab, farm, rest) && rest != [] && rest[0].id == rest[0].input.id
    ensures EnabledRun(w, es) && Turning(Run(w, es), tab, farm, rest[1..])
    ensures Run(w, es).tabs[tab].session == w.tabs[tab].session
    ensures TurnTaken(w, Run(w, es), w.tabs[tab].session, rest[0], says)
  {
    hide EnabledRun, Run, TurnTaken;
    if rest[0].error.Some? {
      FlaggedTurn(w, tab, farm, rest, says);
      es := [Skip(tab)];
    } else if says(rest[0].id).None? {
      AcceptedTurn(w, tab, farm, rest, says);
      es := [Send(tab), Arrive(Post(w.tabs[tab].session, rest[0].input), true), Answered(tab), Delete(tab)];
    } else {
      RefusedTurn(w, tab, farm, rest, says);
      es := [Send(tab), Declined(tab, says(rest[0].id).value), Flag(tab)];
    }
  }

  /** What a whole list comes to. */
  ghost predicate ListTaken(w: World, v: World, session: Id, list: seq<Row>, says: Verdicts) {
    && w.server.Keys <= v.server.Keys
    && (forall r :: r in list && r.error.None? && says(r.id).None? ==>
          r.id !in v.rows && Key(session, r.id) in v.server)
    && (forall r :: r in list && r.error.None? && says(r.id).Some? ==>
          r.id in v.rows && v.rows[r.id] == r.(error := says(r.id)))
    && (forall id :: (forall r :: r in list && r.error.None? ==> r.id != id) ==>
          (id in v.rows <==> id in w.rows) && (id in v.rows ==> v.rows[id] == w.rows[id]))
  }

  lemma TakenCons(w: World, x: World, v: World, session: Id, list: seq<Row>, says: Verdicts)
    requires list != [] && IdsApart(list)
    requires TurnTaken(w, x, session, list[0], says) && ListTaken(x, v, session, list[1..], says)
    ensures ListTaken(w, v, session, list, says)
  {
    var first, rest := list[0], list[1..];
    assert list == [first] + rest;
    forall r | r in rest ensures r.id != first.id { var k :| 0 <= k < |rest| && rest[k] == r; assert list[k + 1] == r; }
    assert first.id in v.rows <==> first.id in x.rows;
    assert first.id in v.rows ==> v.rows[first.id] == x.rows[first.id];
    forall id | forall r :: r in list && r.error.None? ==> r.id != id
      ensures (id in v.rows <==> id in w.rows) && (id in v.rows ==> v.rows[id] == w.rows[id])
    {
      assert forall r :: r in rest && r.error.None? ==> r.id != id;
    }
  }

  lemma {:induction false} ListGoes(w: World, tab: Id, farm: Id, rest: seq<Row>, says: Verdicts)
      returns (es: seq<Event>)
    requires Turning(w, tab, farm, rest) && IdsApart(rest) && forall r :: r in rest ==> r.id == r.input.id
    ensures EnabledRun(w, es) && Idle(Run(w, es), tab)
    ensures ListTaken(w, Run(w, es), w.tabs[tab].session, rest, says)
    decreases |rest|
  {
    if rest == [] {
      RunCons(w, Finish(tab), []);
      es := [Finish(tab)];
      assert [Finish(tab)] + [] == es;
    } else {
      hide Enabled, Next, TurnTaken, ListTaken, EnabledRun, Run;
      assert rest[0] in rest && forall r :: r in rest[1..] ==> r in rest;
      var now := OneTurn(w, tab, farm, rest, says);
      var x := Run(w, now);
      var later := ListGoes(x, tab, farm, rest[1..], says);
      es := now + later;
      RunConcat(w, now, later);
      TakenCons(w, x, Run(x, later), w.tabs[tab].session, rest, says);
    }
  }

  /** From any state, a tab that is not uploading can bring its farm's rows through: each one the
      server takes is there and off the device, each one it refuses carries its reason, and no
      other row of anybody's has moved. */
  lemma UploadCompletes(w: World, tab: Id, list: seq<Row>, says: Verdicts)
    requires Idle(w, tab) && IsListing(w.rows, w.tabs[tab].session, list)
    requires forall r :: r in list ==> r.id == r.input.id
    ensures exists es :: EnabledRun(w, es) && Idle(Run(w, es), tab)
                         && ListTaken(w, Run(w, es), w.tabs[tab].session, list, says)
  {
    var session := w.tabs[tab].session;
    var x := Next(w, Start(tab, list));
    assert IdsApart(list) by { ListedApart(w.rows, session, list); }
    var es := ListGoes(x, tab, session, list, says);
    hide Enabled, Next, EnabledRun, Run;
    assert Enabled(w, Start(tab, list)) && ListTaken(w, Run(x, es), session, list, says) by { StartedAs(w, tab, list); }
    RunCons(w, Start(tab, list), es);
    assert EnabledRun(w, [Start(tab, list)] + es);
  }

  lemma StartedAs(w: World, tab: Id, list: seq<Row>)
    requires Idle(w, tab) && IsListing(w.rows, w.tabs[tab].session, list)
    ensures Enabled(w, Start(tab, list))
    ensures var x := Next(w, Start(tab, list)); x.rows == w.rows && x.server == w.server
  {
  }

  lemma ListedApart(rows: Store, farm: Id, list: seq<Row>)
    requires IsListing(rows, farm, list)
    ensures IdsApart(list)
  {
    forall i, j | 0 <= i < j < |list| ensures list[i].id != list[j].id {
      assert list[i] in list && list[j] in list;
      assert Stored(rows, farm, list[i]) && Stored(rows, farm, list[j]) && Earlier(list[i], list[j]);
    }
  }

  /** What can happen to a tab at any moment: it may close or change farm; its upload may give up,
      and its request be refused, or answered 401 and sent again, once. */
  lemma TabMayAlways(w: World, tab: Id, farm: Id)
    ensures Enabled(w, Close(tab)) && Next(w, Close(tab)) == w.(tabs := w.tabs - {tab})
    ensures var kept := if tab in w.tabs then w.tabs[tab].upload else None;
            Enabled(w, Switch(tab, farm)) && Next(w, Switch(tab, farm)) == w.(tabs := w.tabs[tab := Tab(farm, kept)])
    ensures Running(w, tab) ==>
              && Enabled(w, GiveUp(tab))
              && Next(w, GiveUp(tab)) == w.(tabs := w.tabs[tab := Tab(w.tabs[tab].session, None)])
    ensures Running(w, tab) && UploadOf(w, tab).stage.Awaiting? ==>
              && (Enabled(w, Resend(tab)) <==> !UploadOf(w, tab).stage.replayed)
              && forall why :: Enabled(w, Declined(tab, why))
  {
  }

  /** And around it: a request that left may arrive, taken or not, as often as it likes, and a
      person may remove a row. */
  lemma WorldMayAlways(w: World, post: Post, id: Id)
    ensures post in w.network ==>
              && Enabled(w, Arrive(post, true)) && Enabled(w, Arrive(post, false)) && Next(w, Arrive(post, false)) == w
              && post in Next(w, Arrive(post, true)).network
    ensures id in w.rows ==>
              && Enabled(w, Remove(id))
              && Next(w, Remove(id)) == w.(rows := w.rows - {id}, removed := w.removed + {id})
  {
  }
}
