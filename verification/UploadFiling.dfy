/** Under which farm a weighing is filed: right on every run that neither sends nor replays
    across a farm switch, and wrong on runs that do. */
module UploadFiling {
  import opened Text
  import opened PriceRules
  import opened UploadQueue
  import opened UploadProtocol
  import opened UploadSafety

  /** Whatever is on its way or on the server is under the farm of its weighing. */
  ghost predicate Filed(w: World) {
    && (forall p :: p in w.network ==> p.input.id in w.taken && p.farm == w.taken[p.input.id].farm)
    && (forall k :: k in w.server ==> k.id in w.taken && k.farm == w.taken[k.id].farm)
  }

  lemma StartIsFiled(w: World)
    requires w == START
    ensures Faithful(w) && Filed(w)
  {
  }

  /** Sending, for the first time or again, while the session is for the farm whose rows are
      going up. */
  predicate Guarded(w: World, e: Event) {
    (e.Send? || e.Resend?) && Running(w, e.tab) ==> w.tabs[e.tab].session == UploadOf(w, e.tab).farm
  }

  /** A run that can happen, with every sending and every replay guarded. */
  ghost predicate GuardedRun(w: World, es: seq<Event>)
    decreases |es|
  {
    es != [] ==> Enabled(w, es[0]) && Guarded(w, es[0]) && GuardedRun(Next(w, es[0]), es[1..])
  }

  /** A request that leaves keeps the filing right exactly when it leaves under its own farm. */
  lemma FiledWith(w: World, v: World, p: Post, farm: Id)
    requires Filed(w) && v.network == w.network + {p} && v.server == w.server && v.taken == w.taken
    requires p.input.id in w.taken && w.taken[p.input.id].farm == farm
    ensures Filed(v) <==> p.farm == farm
  {
    assert p in v.network;
  }

  /** Nothing else that happens can misfile. */
  lemma FiledOtherwise(w: World, e: Event)
    requires Faithful(w) && Filed(w) && Enabled(w, e) && !e.Send? && !e.Resend?
    ensures Filed(Next(w, e))
  {
    hide NoneLost, RowsTyped, UploadsFaithful, IsListing;
  }

  /** One event keeps the filing right exactly when it is guarded. */
  lemma FiledExactly(w: World, e: Event)
    requires Faithful(w) && Filed(w) && Enabled(w, e)
    ensures Filed(Next(w, e)) <==> Guarded(w, e)
  {
    hide NoneLost, RowsTyped, PostsKnown, IsListing, Filed;
    if e.Send? {
      var u := UploadOf(w, e.tab);
      assert UploadFaithful(w, u) && u.rest[0] in u.rest;
      FiledWith(w, Next(w, e), Post(w.tabs[e.tab].session, u.rest[0].input), u.farm);
    } else if e.Resend? {
      var u := UploadOf(w, e.tab);
      assert UploadFaithful(w, u);
      FiledWith(w, Next(w, e), Post(w.tabs[e.tab].session, u.stage.row.input), u.farm);
    } else {
      FiledOtherwise(w, e);
    }
  }

  lemma {:induction false} FiledRun(w: World, es: seq<Event>)
    requires Faithful(w) && Filed(w) && GuardedRun(w, es)
    ensures EnabledRun(w, es) && Faithful(Run(w, es)) && Filed(Run(w, es))
    decreases |es|
  {
    hide Faithful, Filed, Enabled, Next, Guarded;
    if es != [] {
      FiledExactly(w, es[0]);
      NextFaithful(w, es[0]);
      FiledRun(Next(w, es[0]), es[1..]);
    }
  }

  /** What has left or arrived is there for good. */
  lemma NothingRecalled(w: World, e: Event)
    requires Enabled(w, e)
    ensures w.network <= Next(w, e).network && w.server.Keys <= Next(w, e).server.Keys
  {
    hide IsListing;
  }

  /** What was misfiled stays misfiled. */
  lemma MisfiledStays(w: World, e: Event)
    requires Faithful(w) && Enabled(w, e) && !Filed(w)
    ensures !Filed(Next(w, e))
  {
    hide NoneLost, RowsTyped, UploadsFaithful, Enabled, Next;
    NothingRecalled(w, e);
    assert Grows(w, Next(w, e)) by { NextGrows(w, e); }
    hide OnServer;
    if p :| p in w.network && !(p.input.id in w.taken && p.farm == w.taken[p.input.id].farm) {
      assert p in Next(w, e).network;
    } else {
      var k :| k in w.server && !(k.id in w.taken && k.farm == w.taken[k.id].farm);
      assert k in Next(w, e).server;
    }
  }

  /** A whole run files everything right exactly when it started right and every sending and
      every replay in it was guarded. */
  lemma {:induction false} FiledRunExactly(w: World, es: seq<Event>)
    requires Faithful(w) && EnabledRun(w, es)
    ensures Filed(Run(w, es)) <==> Filed(w) && GuardedRun(w, es)
    decreases |es|
  {
    hide Faithful, Filed, Enabled, Next, Guarded;
    if es != [] {
      if Filed(w) { FiledExactly(w, es[0]); } else { MisfiledStays(w, es[0]); }
      NextFaithful(w, es[0]);
      FiledRunExactly(Next(w, es[0]), es[1..]);
    }
  }

  /** When no tab sends or replays across a farm switch, the server holds at most one record
      per id, equal to the weighing typed and under the farm it was taken on. */
  lemma OneRecordEach(es: seq<Event>, p: Post, q: Post)
    requires GuardedRun(START, es)
    ensures EnabledRun(START, es)
    ensures var w := Run(START, es);
            && (OnServer(w, p) ==>
                  p.input.id in w.taken && p == Post(w.taken[p.input.id].farm, w.taken[p.input.id].input))
            && (OnServer(w, p) && OnServer(w, q) && p.input.id == q.input.id ==> p == q)
  {
    hide GuardedRun, Run, NoneLost, RowsTyped, UploadsFaithful;
    StartIsFiled(START);
    FiledRun(START, es);
  }

  /* ---- runs that go wrong ---- */

  lemma RunCons(w: World, e: Event, es: seq<Event>)
    requires Enabled(w, e) && EnabledRun(Next(w, e), es)
    ensures EnabledRun(w, [e] + es) && Run(w, [e] + es) == Run(Next(w, e), es)
  {
    assert ([e] + es)[1..] == es;
  }

  lemma RunOfFour(w: World, e: Event, f: Event, g: Event, h: Event, x: World, y: World, z: World)
    requires Enabled(w, e) && x == Next(w, e)
    requires Enabled(x, f) && y == Next(x, f)
    requires Enabled(y, g) && z == Next(y, g)
    requires Enabled(z, h)
    ensures EnabledRun(w, [e, f, g, h]) && Run(w, [e, f, g, h]) == Next(z, h)
  {
    hide Enabled, Next;
    RunCons(z, h, []);
    RunCons(y, g, [h]);
    RunCons(x, f, [g, h]);
    RunCons(w, e, [f, g, h]);
    assert [h] + [] == [h] && [g] + [h] == [g, h] && [f] + [g, h] == [f, g, h] && [e] + [f, g, h] == [e, f, g, h];
  }

  lemma {:induction false} RunConcat(w: World, es: seq<Event>, fs: seq<Event>)
    requires EnabledRun(w, es) && EnabledRun(Run(w, es), fs)
    ensures EnabledRun(w, es + fs) && Run(w, es + fs) == Run(Run(w, es), fs)
    decreases |es|
  {
    hide Enabled, Next;
    if es == [] {
      assert es + fs == fs;
    } else {
      assert (es + fs)[1..] == es[1..] + fs;
      RunConcat(Next(w, es[0]), es[1..], fs);
    }
  }

  /** The world while a single weighing goes up from a single tab. */
  function Alone(row: Row, tab: Id, session: Id, rest: seq<Row>, stage: Stage, network: set<Post>): (w: World) {
    World(map[row.id := row], map[tab := Tab(session, Some(Upload(row.farm, rest, stage)))], network, map[],
          map[row.id := row], {})
  }

  lemma SendAlone(row: Row, tab: Id, session: Id)
    requires row.error.None?
    ensures var w := Alone(row, tab, session, [row], Looping, {});
            && Enabled(w, Send(tab))
            && Next(w, Send(tab))
               == Alone(row, tab, session, [], Awaiting(row, session, false), {Post(session, row.input)})
  {
    var w := Alone(row, tab, session, [row], Looping, {});
    assert [row][1..] == [] && Next(w, Send(tab)).network == {} + {Post(session, row.input)};
  }

  lemma SwitchAlone(row: Row, tab: Id, from: Id, to: Id, rest: seq<Row>, stage: Stage, network: set<Post>)
    ensures Next(Alone(row, tab, from, rest, stage, network), Switch(tab, to))
            == Alone(row, tab, to, rest, stage, network)
  {
  }

  lemma ResendAlone(row: Row, tab: Id, session: Id, under: Id, network: set<Post>)
    ensures var w := Alone(row, tab, session, [], Awaiting(row, under, false), network);
            && Enabled(w, Resend(tab))
            && Next(w, Resend(tab))
               == Alone(row, tab, session, [], Awaiting(row, session, true), network + {Post(session, row.input)})
  {
  }

  lemma ArriveAlone(row: Row, tab: Id, session: Id, stage: Stage, network: set<Post>, post: Post)
    requires post in network && post.input == row.input
    ensures var w := Alone(row, tab, session, [], stage, network);
            && Enabled(w, Arrive(post, true))
            && Next(w, Arrive(post, true)) == w.(server := map[KeyOf(post) := row.input])
  {
  }

  /** A weighing typed, its upload begun, and the session switched under it. */
  lemma SwitchedUnder(row: Row, tab: Id, other: Id)
    requires row.id == row.input.id && row.error.None?
    ensures var es := [Switch(tab, row.farm), Type(tab, row), Start(tab, [row]), Switch(tab, other)];
            EnabledRun(START, es) && Run(START, es) == Alone(row, tab, other, [row], Looping, {})
  {
    var rows := map[row.id := row];
    var x := World(map[], map[tab := Tab(row.farm, None)], {}, map[], map[], {});
    var y := World(rows, map[tab := Tab(row.farm, None)], {}, map[], rows, {});
    var z := Alone(row, tab, row.farm, [row], Looping, {});
    assert x == Next(START, Switch(tab, row.farm));
    assert y == Next(x, Type(tab, row));
    assert IsListing(rows, row.farm, [row]);
    assert z == Next(y, Start(tab, [row]));
    SwitchAlone(row, tab, row.farm, other, [row], Looping, {});
    RunOfFour(START, Switch(tab, row.farm), Type(tab, row), Start(tab, [row]), Switch(tab, other), x, y, z);
  }

  lemma SentUnder(row: Row, tab: Id, other: Id)
    requires row.id == row.input.id && row.error.None? && other != row.farm
    ensures var w := Alone(row, tab, other, [row], Looping, {});
            var es := [Send(tab), Arrive(Post(other, row.input), true), Answered(tab), Delete(tab)];
            EnabledRun(w, es) && Misfiled(Run(w, es), row, other)
  {
    var post := Post(other, row.input);
    var w := Alone(row, tab, other, [row], Looping, {});
    var x := Alone(row, tab, other, [], Awaiting(row, other, false), {post});
    var y := x.(server := map[KeyOf(post) := row.input]);
    SendAlone(row, tab, other);
    ArriveAlone(row, tab, other, Awaiting(row, other, false), {post}, post);
    var z := Next(y, Answered(tab));
    assert UploadOf(z, tab) == Upload(row.farm, [], Deleting(row));
    RunOfFour(w, Send(tab), Arrive(post, true), Answered(tab), Delete(tab), x, y, z);
  }

  /** A tab that keeps uploading through a farm switch files a weighing under the wrong farm,
      and then deletes it from the device. */
  lemma SwitchMisfiles(row: Row, tab: Id, other: Id)
    requires row.id == row.input.id && row.error.None? && other != row.farm
    ensures exists es :: EnabledRun(START, es) && Misfiled(Run(START, es), row, other)
  {
    hide EnabledRun, Run, Misfiled, Enabled, Next;
    var es := [Switch(tab, row.farm), Type(tab, row), Start(tab, [row]), Switch(tab, other)];
    var fs := [Send(tab), Arrive(Post(other, row.input), true), Answered(tab), Delete(tab)];
    SwitchedUnder(row, tab, other);
    SentUnder(row, tab, other);
    RunConcat(START, es, fs);
    assert Misfiled(Run(START, es + fs), row, other);
  }

  lemma RefusedUnder(row: Row, tab: Id, why: string)
    requires row.id == row.input.id && row.error.None?
    ensures var w := Alone(row, tab, row.farm, [row], Looping, {});
            var es := [Send(tab), Declined(tab, why), Remove(row.id), Flag(tab)];
            EnabledRun(w, es) && WrittenBack(Run(w, es), row, why)
  {
    var w := Alone(row, tab, row.farm, [row], Looping, {});
    var x := Alone(row, tab, row.farm, [], Awaiting(row, row.farm, false), {Post(row.farm, row.input)});
    SendAlone(row, tab, row.farm);
    var y := Next(x, Declined(tab, why));
    assert UploadOf(y, tab).stage == Flagging(row, why);
    var z := Next(y, Remove(row.id));
    RunOfFour(w, Send(tab), Declined(tab, why), Remove(row.id), Flag(tab), x, y, z);
  }

  /** A weighing a person removed is on the device again, with a refusal written on it. */
  ghost predicate WrittenBack(w: World, row: Row, why: string) {
    row.id in w.removed && row.id in w.rows && w.rows[row.id] == row.(error := Some(why))
  }

  /** A person who removes a weighing while its upload is being refused gets it back. */
  lemma RemovedComesBack(row: Row, tab: Id, why: string)
    requires row.id == row.input.id && row.error.None?
    ensures exists es :: EnabledRun(START, es) && WrittenBack(Run(START, es), row, why)
  {
    hide EnabledRun, Run, WrittenBack, Enabled, Next;
    var es := [Switch(tab, row.farm), Type(tab, row), Start(tab, [row]), Switch(tab, row.farm)];
    var fs := [Send(tab), Declined(tab, why), Remove(row.id), Flag(tab)];
    SwitchedUnder(row, tab, row.farm);
    RefusedUnder(row, tab, why);
    RunConcat(START, es, fs);
    assert WrittenBack(Run(START, es + fs), row, why);
  }

  ghost predicate Misfiled(w: World, row: Row, other: Id) {
    && row.id !in w.rows && row.id !in w.removed
    && OnServer(w, Post(other, row.input)) && !OnServer(w, Post(row.farm, row.input))
  }

  /* ---- guarding the first sending is not enough ---- */

  /** A run with every first sending guarded, whatever is replayed. */
  ghost predicate SentAtHome(w: World, es: seq<Event>)
    decreases |es|
  {
    es != [] ==> Enabled(w, es[0]) && (es[0].Send? ==> Guarded(w, es[0])) && SentAtHome(Next(w, es[0]), es[1..])
  }

  lemma {:induction false} HomeConcat(w: World, es: seq<Event>, fs: seq<Event>)
    requires EnabledRun(w, es) && SentAtHome(w, es) && SentAtHome(Run(w, es), fs)
    ensures SentAtHome(w, es + fs)
    decreases |es|
  {
    hide Enabled, Next, Guarded;
    if es == [] {
      assert es + fs == fs;
    } else {
      assert (es + fs)[1..] == es[1..] + fs;
      HomeConcat(Next(w, es[0]), es[1..], fs);
    }
  }

  lemma {:induction false} HomeIfUnsent(w: World, es: seq<Event>)
    requires EnabledRun(w, es) && forall e :: e in es ==> !e.Send?
    ensures SentAtHome(w, es)
    decreases |es|
  {
    hide Enabled, Next, Guarded;
    if es != [] {
      assert es[0] in es && forall e :: e in es[1..] ==> e in es;
      HomeIfUnsent(Next(w, es[0]), es[1..]);
    }
  }

  /** A weighing typed and sent under its own farm, its session switched, its request replayed. */
  lemma ReplayedUnder(row: Row, tab: Id, other: Id)
    requires row.id == row.input.id && row.error.None?
    ensures var home, away := Post(row.farm, row.input), Post(other, row.input);
            var w := Alone(row, tab, row.farm, [row], Looping, {});
            var es := [Send(tab), Switch(tab, other), Resend(tab), Arrive(away, true)];
            && EnabledRun(w, es) && SentAtHome(w, es)
            && Run(w, es) == Alone(row, tab, other, [], Awaiting(row, other, true), {home, away})
                               .(server := map[KeyOf(away) := row.input])
  {
    var home, away := Post(row.farm, row.input), Post(other, row.input);
    var w := Alone(row, tab, row.farm, [row], Looping, {});
    var x := Alone(row, tab, row.farm, [], Awaiting(row, row.farm, false), {home});
    var y := Alone(row, tab, other, [], Awaiting(row, row.farm, false), {home});
    var z := Alone(row, tab, other, [], Awaiting(row, other, true), {home, away});
    SendAlone(row, tab, row.farm);
    SwitchAlone(row, tab, row.farm, other, [], Awaiting(row, row.farm, false), {home});
    ResendAlone(row, tab, other, row.farm, {home});
    ArriveAlone(row, tab, other, Awaiting(row, other, true), {home, away}, away);
    assert {home, away} == {home} + {away};
    assert Enabled(x, Switch(tab, other)) && Guarded(w, Send(tab));
    hide Enabled, Next, Alone, Guarded;
    RunOfFour(w, Send(tab), Switch(tab, other), Resend(tab), Arrive(away, true), x, y, z);
    AfterSend(w, tab, [Switch(tab, other), Resend(tab), Arrive(away, true)]);
  }

  lemma AfterSend(w: World, tab: Id, es: seq<Event>)
    requires EnabledRun(w, [Send(tab)] + es) && Guarded(w, Send(tab)) && forall e :: e in es ==> !e.Send?
    ensures SentAtHome(w, [Send(tab)] + es)
  {
    hide Enabled, Next, Guarded;
    assert ([Send(tab)] + es)[1..] == es;
    HomeIfUnsent(Next(w, Send(tab)), es);
  }

  /** A 401 answered after the session was switched makes the client replay the request under
      the other farm: the weighing is misfiled though every sending was under its own. */
  lemma ReplayMisfiles(row: Row, tab: Id, other: Id)
    requires row.id == row.input.id && row.error.None? && other != row.farm
    ensures exists es :: EnabledRun(START, es) && SentAtHome(START, es) && Misfiled(Run(START, es), row, other)
  {
    hide EnabledRun, Run, Enabled, Next, SentAtHome, Misfiled;
    var es := [Switch(tab, row.farm), Type(tab, row), Start(tab, [row]), Switch(tab, row.farm)];
    var away := Post(other, row.input);
    var fs := [Send(tab), Switch(tab, other), Resend(tab), Arrive(away, true)];
    var gs := [Answered(tab), Delete(tab)];
    SwitchedUnder(row, tab, row.farm);
    HomeIfUnsent(START, es);
    ReplayedUnder(row, tab, other);
    HomeConcat(START, es, fs);
    RunConcat(START, es, fs);
    DeletedUnder(row, tab, other);
    HomeConcat(START, es + fs, gs);
    RunConcat(START, es + fs, gs);
    assert Misfiled(Run(START, es + fs + gs), row, other);
  }

  lemma DeletedUnder(row: Row, tab: Id, other: Id)
    requires row.id == row.input.id && other != row.farm
    ensures var home, away := Post(row.farm, row.input), Post(other, row.input);
            var w := Alone(row, tab, other, [], Awaiting(row, other, true), {home, away})
                       .(server := map[KeyOf(away) := row.input]);
            var gs := [Answered(tab), Delete(tab)];
            EnabledRun(w, gs) && SentAtHome(w, gs) && Misfiled(Run(w, gs), row, other)
  {
    var home, away := Post(row.farm, row.input), Post(other, row.input);
    var w := Alone(row, tab, other, [], Awaiting(row, other, true), {home, away})
             .(server := map[KeyOf(away) := row.input]);
    var x := Next(w, Answered(tab));
    assert UploadOf(x, tab) == Upload(row.farm, [], Deleting(row));
    assert Misfiled(Next(x, Delete(tab)), row, other);
    var last := [Delete(tab)];
    RunCons(x, Delete(tab), []);
    RunCons(w, Answered(tab), last);
    assert [Delete(tab)] + [] == last && [Answered(tab)] + last == [Answered(tab), Delete(tab)];
    HomeIfUnsent(w, [Answered(tab), Delete(tab)]);
  }
}
