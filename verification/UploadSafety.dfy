/** What every run of the upload protocol keeps: nothing typed is lost, invented or altered. */
module UploadSafety {
  import opened Text
  import opened PriceRules
  import opened UploadQueue
  import opened UploadProtocol

  /** A row is the weighing as it was typed, but for a refusal written on it. */
  predicate AsTyped(taken: Store, r: Row) { r.id in taken && taken[r.id] == r.(error := None) && r.id == r.input.id }

  predicate Known(taken: Store, p: Post) { p.input.id in taken && taken[p.input.id].input == p.input }

  ghost predicate Somewhere(w: World, id: Id) {
    id in w.rows || id in w.removed || exists p :: OnServer(w, p) && p.input.id == id
  }

  ghost predicate UploadFaithful(w: World, u: Upload) {
    && (forall r :: r in u.rest ==> AsTyped(w.taken, r) && r.farm == u.farm)
    && (!u.stage.Looping? ==> AsTyped(w.taken, u.stage.row) && u.stage.row.farm == u.farm)
    && (u.stage.Deleting? ==> exists p :: OnServer(w, p) && p.input == u.stage.row.input)
  }

  ghost predicate RowsTyped(w: World) {
    forall id :: id in w.rows ==> w.rows[id].id == id && AsTyped(w.taken, w.rows[id])
  }

  ghost predicate UploadsFaithful(w: World) { forall tab :: Running(w, tab) ==> UploadFaithful(w, UploadOf(w, tab)) }

  ghost predicate PostsKnown(w: World) {
    && (forall p :: p in w.network ==> Known(w.taken, p))
    && (forall k :: k in w.server ==> w.server[k].id == k.id && Known(w.taken, Post(k.farm, w.server[k])))
  }

  ghost predicate NoneLost(w: World) { forall id :: id in w.taken ==> Somewhere(w, id) }

  ghost predicate Faithful(w: World) { RowsTyped(w) && UploadsFaithful(w) && PostsKnown(w) && NoneLost(w) }

  /** What no event takes away. */
  ghost predicate Grows(w: World, v: World) {
    && (forall id :: id in w.taken ==> id in v.taken && v.taken[id] == w.taken[id])
    && (forall p :: OnServer(w, p) ==> OnServer(v, p))
    && w.removed <= v.removed
  }

  lemma NextGrows(w: World, e: Event)
    requires Enabled(w, e)
    ensures Grows(w, Next(w, e))
  {
    hide IsListing;
  }

  lemma StillFaithful(w: World, v: World, u: Upload)
    requires Grows(w, v) && UploadFaithful(w, u)
    ensures UploadFaithful(v, u)
  {
    hide OnServer;
    if u.stage.Deleting? {
      var p :| OnServer(w, p) && p.input == u.stage.row.input;
      assert OnServer(v, p);
    }
  }

  lemma NextUpload(w: World, e: Event, tab: Id)
    requires Faithful(w) && Enabled(w, e) && Running(Next(w, e), tab)
    ensures UploadFaithful(Next(w, e), UploadOf(Next(w, e), tab))
  {
    hide NoneLost, RowsTyped, PostsKnown, Grows, UploadFaithful, OnServer;
    var v := Next(w, e);
    NextGrows(w, e);
    if Running(w, tab) && UploadOf(v, tab) == UploadOf(w, tab) {
      StillFaithful(w, v, UploadOf(w, tab));
    } else {
      OwnStep(w, e, tab);
      StillFaithful(w, v, UploadOf(v, tab));
    }
  }

  /** A repeated id is answered with the record there is, and that is the weighing typed. */
  lemma AnsweredIsThere(w: World, tab: Id)
    requires PostsKnown(w) && Enabled(w, Answered(tab)) && UploadFaithful(w, UploadOf(w, tab))
    ensures var stage := UploadOf(w, tab).stage; OnServer(w, Post(stage.under, stage.row.input))
  {
  }

  lemma ListingFaithful(w: World, farm: Id, list: seq<Row>)
    requires RowsTyped(w) && IsListing(w.rows, farm, list)
    ensures UploadFaithful(w, Upload(farm, list, Looping))
  {
    forall r | r in list ensures AsTyped(w.taken, r) && r.farm == farm { assert Stored(w.rows, farm, r); }
  }

  /** What a tab may turn a faithful upload into, and what it keeps of it. */
  lemma OwnTurn(w: World, u: Upload, v: Upload)
    requires UploadFaithful(w, u) && v.farm == u.farm
    requires v.rest == u.rest || (u.rest != [] && v.rest == u.rest[1..])
    requires || v.stage.Looping?
             || (!u.stage.Looping? && v.stage.row == u.stage.row) || (u.rest != [] && v.stage.row == u.rest[0])
    requires v.stage.Deleting? ==> exists p :: OnServer(w, p) && p.input == v.stage.row.input
    ensures UploadFaithful(w, v)
  {
    hide AsTyped, OnServer;
    if u.rest != [] { assert u.rest[0] in u.rest && forall r :: r in u.rest[1..] ==> r in u.rest; }
  }

  /** A tab's own step leaves it with an upload that is faithful to the state before. */
  lemma OwnStep(w: World, e: Event, tab: Id)
    requires Faithful(w) && Enabled(w, e) && Running(Next(w, e), tab)
    requires !Running(w, tab) || UploadOf(Next(w, e), tab) != UploadOf(w, tab)
    ensures UploadFaithful(w, UploadOf(Next(w, e), tab))
  {
    hide NoneLost, OnServer, RowsTyped, PostsKnown, IsListing, AsTyped;
    if e.Start? {
      ListingFaithful(w, w.tabs[tab].session, e.list);
    } else {
      assert UploadFaithful(w, UploadOf(w, tab));
      hide UploadFaithful;
      if e.Answered? { AnsweredIsThere(w, tab); }
      OwnTurn(w, UploadOf(w, tab), UploadOf(Next(w, e), tab));
    }
  }

  lemma NextRows(w: World, e: Event)
    requires Faithful(w) && Enabled(w, e)
    ensures RowsTyped(Next(w, e))
  {
    hide NoneLost, OnServer, IsListing, PostsKnown;
    if e.Flag? { assert UploadFaithful(w, UploadOf(w, e.tab)); }
  }

  lemma PostsWith(w: World, v: World, p: Post)
    requires PostsKnown(w) && Known(w.taken, p)
    requires v.network == w.network + {p} && v.server == w.server && v.taken == w.taken
    ensures PostsKnown(v)
  {
  }

  lemma NextPosts(w: World, e: Event)
    requires Faithful(w) && Enabled(w, e)
    ensures PostsKnown(Next(w, e))
  {
    hide NoneLost, OnServer, IsListing, RowsTyped;
    if e.Send? {
      var u := UploadOf(w, e.tab);
      assert UploadFaithful(w, u) && u.rest[0] in u.rest;
      hide PostsKnown, UploadFaithful;
      PostsWith(w, Next(w, e), Post(w.tabs[e.tab].session, u.rest[0].input));
    } else if e.Resend? {
      var u := UploadOf(w, e.tab);
      assert UploadFaithful(w, u);
      hide PostsKnown, UploadFaithful;
      PostsWith(w, Next(w, e), Post(w.tabs[e.tab].session, u.stage.row.input));
    } else if e.Arrive? {
      PostArrives(w, e.post, e.accepted);
    } else {
      hide UploadsFaithful;
    }
  }

  lemma PostArrives(w: World, p: Post, accepted: bool)
    requires PostsKnown(w) && p in w.network
    ensures PostsKnown(Next(w, Arrive(p, accepted)))
  {
  }

  lemma StillSomewhere(w: World, v: World, id: Id)
    requires Grows(w, v) && Somewhere(w, id) && (id in w.rows ==> Somewhere(v, id))
    ensures Somewhere(v, id)
  {
    hide OnServer;
    if id !in w.rows && id !in w.removed {
      var p :| OnServer(w, p) && p.input.id == id;
      assert OnServer(v, p);
    }
  }

  lemma NextLosesNone(w: World, e: Event)
    requires Faithful(w) && Enabled(w, e)
    ensures NoneLost(Next(w, e))
  {
    hide RowsTyped, PostsKnown, IsListing, Grows, Somewhere, OnServer;
    var v := Next(w, e);
    NextGrows(w, e);
    forall id | id in v.taken ensures Somewhere(v, id) {
      RowKept(w, e, id);
      if id in w.taken { StillSomewhere(w, v, id); }
    }
  }

  /** What an upload deletes the server has. */
  lemma DeletedIsThere(w: World, tab: Id)
    requires UploadsFaithful(w) && Enabled(w, Delete(tab))
    ensures Somewhere(Next(w, Delete(tab)), UploadOf(w, tab).stage.row.id)
  {
    var u := UploadOf(w, tab);
    assert UploadFaithful(w, u);
    var p :| OnServer(w, p) && p.input == u.stage.row.input;
    assert OnServer(Next(w, Delete(tab)), p);
  }

  /** A row leaves the device for two reasons only: a person removed it, or the server has it. */
  lemma RowKept(w: World, e: Event, id: Id)
    requires Faithful(w) && Enabled(w, e)
    ensures id in w.rows ==> Somewhere(Next(w, e), id)
    ensures id in Next(w, e).taken && id !in w.taken ==> Somewhere(Next(w, e), id)
  {
    hide PostsKnown, IsListing, NoneLost, RowsTyped, UploadsFaithful, OnServer;
    if e.Delete? { DeletedIsThere(w, e.tab); }
  }

  lemma NextFaithful(w: World, e: Event)
    requires Faithful(w) && Enabled(w, e)
    ensures Faithful(Next(w, e))
  {
    hide RowsTyped, UploadFaithful, PostsKnown, NoneLost, Enabled, Next;
    NextRows(w, e);
    NextPosts(w, e);
    NextLosesNone(w, e);
    forall tab | Running(Next(w, e), tab) ensures UploadFaithful(Next(w, e), UploadOf(Next(w, e), tab)) {
      NextUpload(w, e, tab);
    }
  }

  /** In every run, whatever is lost, repeated, delayed or closed: each weighing typed is on
      the device, on the server, or was removed by a person; and the server holds nothing
      under an id but the weighing that was typed under it. */
  lemma {:induction false} NothingLost(w: World, es: seq<Event>)
    requires Faithful(w) && EnabledRun(w, es)
    ensures Faithful(Run(w, es))
    decreases |es|
  {
    hide Faithful, Enabled, Next;
    if es != [] {
      NextFaithful(w, es[0]);
      NothingLost(Next(w, es[0]), es[1..]);
    }
  }

  /** From an empty device and an empty server: every weighing ever typed is on the device as
      it was typed, or was removed by a person, or is on the server as it was typed; and the
      server holds nothing else. */
  lemma NothingEverLost(es: seq<Event>, id: Id, k: Key)
    requires EnabledRun(START, es)
    ensures var w := Run(START, es);
            && (id in w.taken && id in w.rows ==> w.rows[id].(error := None) == w.taken[id])
            && (id in w.taken && id !in w.rows && id !in w.removed ==>
                  exists farm :: Key(farm, id) in w.server && w.server[Key(farm, id)] == w.taken[id].input)
            && (k in w.server ==> k.id in w.taken && w.server[k] == w.taken[k.id].input)
  {
    hide EnabledRun, Run;
    var start := START;
    assert Faithful(start);
    NothingLost(START, es);
    var w := Run(START, es);
    if id in w.taken && id !in w.rows && id !in w.removed {
      var p :| OnServer(w, p) && p.input.id == id;
      assert Key(p.farm, id) in w.server;
    }
  }

  /* ---- rows that come back ---- */

  /** A weighing once off the device returns to it in one way only: a tab that was refused it
      writes its snapshot back, flagged, over a removal or another tab's upload. */
  lemma ReturnsExactly(w: World, e: Event, id: Id)
    requires Faithful(w) && Enabled(w, e) && id in w.taken && id !in w.rows
    ensures id in Next(w, e).rows <==> e.Flag? && UploadOf(w, e.tab).stage.row.id == id
    ensures id in Next(w, e).rows ==> Next(w, e).rows[id] == w.taken[id].(error := Some(UploadOf(w, e.tab).stage.why))
  {
    hide NoneLost, RowsTyped, PostsKnown, IsListing;
    if e.Flag? { assert UploadFaithful(w, UploadOf(w, e.tab)); }
  }

  /** A run in which no tab flags a weighing that is off the device. */
  ghost predicate NoneWrittenBack(w: World, es: seq<Event>)
    decreases |es|
  {
    es != [] ==>
      && Enabled(w, es[0])
      && (es[0].Flag? ==> UploadOf(w, es[0].tab).stage.row.id in w.rows)
      && NoneWrittenBack(Next(w, es[0]), es[1..])
  }

  /** In such a run what left the device stays off it. */
  lemma {:induction false} GoneStaysGone(w: World, es: seq<Event>, id: Id)
    requires Faithful(w) && NoneWrittenBack(w, es) && id in w.taken && id !in w.rows
    ensures EnabledRun(w, es) && id !in Run(w, es).rows
    decreases |es|
  {
    hide Faithful, Enabled, Next;
    if es != [] {
      ReturnsExactly(w, es[0], id);
      NextFaithful(w, es[0]);
      StillTaken(w, es[0], id);
      GoneStaysGone(Next(w, es[0]), es[1..], id);
    }
  }

  lemma StillTaken(w: World, e: Event, id: Id)
    requires Enabled(w, e) && id in w.taken
    ensures id in Next(w, e).taken
  {
  }
}
