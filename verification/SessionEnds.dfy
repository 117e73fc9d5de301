/** What becomes of a request that is answered 401, over whole runs of a tab: when it goes out
    again, and for which causes only it ends the session. */
module SessionEnds {
  import opened Text
  import opened PriceRules
  import opened SessionRefresh

  /* ---- one event ---- */

  /** A response ends its request unless it is a 401. A 401 waits for a refresh exactly when it
      answers a first sending that carried a session still held; it joins the refresh running,
      or starts one with the token held. Any other 401 stands. */
  lemma RespondsExactly(s: State, id: Id, status: int)
    requires Orderly(s) && Enabled(s, Responds(id, status))
    ensures var (t, r) := (Next(s, Responds(id, status)), s.requests[id]);
            var on := if s.inFlight.Some? then s.inFlight.value else |s.refreshes|;
            var waits := status == 401 && r.phase.First? && !r.anonymous && s.tokens.Some?;
            && t.tokens == s.tokens && t.requests.Keys == s.requests.Keys
            && (forall other :: other in s.requests && other != id ==> t.requests[other] == s.requests[other])
            && (t.requests[id].phase.Ended? <==> status != 401)
            && (t.requests[id].phase == Waiting(on) <==> waits)
            && (t.requests[id].phase.Failing? <==> status == 401 && !waits)
            && t.requests[id] == r.(phase := t.requests[id].phase)
            && t.inFlight == (if waits then Some(on) else s.inFlight)
            && t.refreshes == (if waits && s.inFlight.None?
                               then s.refreshes + [Refresh(s.tokens.value.refresh, Asking)] else s.refreshes)
  {
    hide AllDisciplined, SingleFlight;
  }

  /** A request that waited goes out a second time exactly when its refresh brought tokens, and
      otherwise keeps its 401. */
  lemma ResumesExactly(s: State, id: Id)
    requires Orderly(s) && Enabled(s, Resumes(id))
    ensures var (t, r) := (Next(s, Resumes(id)), s.requests[id]);
            var brought := s.refreshes[r.phase.on].stage.next.Some?;
            && t == s.(requests := t.requests) && t.requests == s.requests[id := t.requests[id]]
            && (t.requests[id].phase.Second? && t.requests[id].sent == 2 <==> brought)
            && (t.requests[id].phase.Failing? && t.requests[id].sent == 1 <==> !brought)
            && t.requests[id].anonymous == r.anonymous
  {
    hide SingleFlight;
    assert Disciplined(s, s.requests[id]);
  }

  /** What each end of a refresh leaves: nothing for a refusal, the new tokens for an answer
      read, the old ones for an answer lost. Only a refused or a finished one is over. */
  lemma RefreshEndsExactly(s: State, e: Event)
    requires Orderly(s) && Enabled(s, e) && (e.RefreshResponds? || e.RefreshReads? || e.RefreshLost?)
    ensures var (t, i) := (Next(s, e), s.inFlight.value);
            && t.requests == s.requests && |t.refreshes| == |s.refreshes|
            && (forall j :: 0 <= j < |s.refreshes| && j != i ==> t.refreshes[j] == s.refreshes[j])
            && t.refreshes[i].presented == s.refreshes[i].presented
            && (t.inFlight == s.inFlight <==> e == RefreshResponds(true))
            && (t.inFlight.None? <==> e != RefreshResponds(true))
            && t.tokens == (if e.RefreshReads? then Some(e.next)
                            else if e == RefreshResponds(false) then None else s.tokens)
            && t.refreshes[i].stage == (if e.RefreshReads? then Resolved(Some(e.next))
                                        else if e == RefreshResponds(true) then Reading else Resolved(None))
  {
    hide AllDisciplined, SingleFlight;
  }

  /** The session of a tab changes in four ways: signing out, a refused refresh and a 401 that
      stands end it, signing in and a refresh that is read install theirs. */
  lemma SessionExactly(s: State, e: Event)
    requires Enabled(s, e)
    ensures Next(s, e).tokens ==
              if e.SignOut? || e.ReadsError? || e == RefreshResponds(false) then None
              else if e.SignIn? || e.RefreshReads? then Some(e.next)
              else s.tokens
  {
  }

  /** The rest of a request's life: it leaves once, and is over when the network fails it or its
      401 has been read. */
  lemma LivesExactly(s: State, e: Event)
    requires Enabled(s, e) && (e.Start? || e.NetworkFails? || e.ReadsError?)
    ensures var t := Next(s, e);
            && t == s.(requests := t.requests, tokens := t.tokens)
            && t.requests == s.requests[e.id := t.requests[e.id]]
            && (e.Start? ==> t.requests[e.id] == Request(e.anonymous, 1, First, None))
            && (!e.Start? ==> t.requests[e.id] == s.requests[e.id].(phase := Ended))
  {
  }

  /** What a person or the network may do at any time: sign in with a session never handed out,
      sign out, lose an answer on its way. A refresh asked can end in each of its three ways. */
  lemma AlwaysPossible(s: State, next: Tokens, id: Id)
    requires Orderly(s) && next.refresh !in s.seen
    ensures Enabled(s, SignIn(next)) && Enabled(s, SignOut)
    ensures Enabled(s, RefreshLost) <==> s.inFlight.Some?
    ensures s.inFlight.Some? && s.refreshes[s.inFlight.value].stage.Asking? ==>
              Enabled(s, RefreshResponds(true)) && Enabled(s, RefreshResponds(false))
    ensures s.inFlight.Some? && s.refreshes[s.inFlight.value].stage.Reading? ==> Enabled(s, RefreshReads(next))
    ensures id in s.requests && (s.requests[id].phase.First? || s.requests[id].phase.Second?) ==>
              Enabled(s, NetworkFails(id)) && forall status :: Enabled(s, Responds(id, status))
    ensures id in s.requests && s.requests[id].phase.Waiting? && s.inFlight != Some(s.requests[id].phase.on) ==>
              Enabled(s, Resumes(id))
    ensures id in s.requests && s.requests[id].phase.Failing? ==> Enabled(s, ReadsError(id))
    ensures id !in s.requests ==> Enabled(s, Start(id, true)) && Enabled(s, Start(id, false))
  {
    if id in s.requests { assert Disciplined(s, s.requests[id]); }
  }

  /* ---- whole runs, event by event ---- */

  lemma {:induction false} RunSnoc(s: State, es: seq<Event>, e: Event)
    ensures EnabledRun(s, es + [e]) <==> EnabledRun(s, es) && Enabled(Run(s, es), e)
    ensures EnabledRun(s, es + [e]) ==> Run(s, es + [e]) == Next(Run(s, es), e)
    decreases |es|
  {
    hide Enabled, Next;
    if es == [] {
      assert [] + [e] == [e] && [e][1..] == [];
    } else {
      assert (es + [e])[1..] == es[1..] + [e];
      if Enabled(s, es[0]) { RunSnoc(Next(s, es[0]), es[1..], e); }
    }
  }

  /** The tab after the first `k` events. */
  ghost function After(found: Option<Tokens>, es: seq<Event>, k: nat): (s: State)
    requires k <= |es|
  {
    if EnabledRun(Opened(found), es[..k]) then Run(Opened(found), es[..k]) else Opened(found)
  }

  ghost predicate Happens(found: Option<Tokens>, es: seq<Event>) { EnabledRun(Opened(found), es) }

  lemma HappensSnoc(found: Option<Tokens>, es: seq<Event>, e: Event)
    requires Happens(found, es + [e])
    ensures Happens(found, es) && Orderly(After(found, es, |es|)) && Enabled(After(found, es, |es|), e)
    ensures After(found, es + [e], |es| + 1) == Next(After(found, es, |es|), e)
    ensures forall k :: 0 <= k <= |es| ==> After(found, es + [e], k) == After(found, es, k)
  {
    hide Enabled, Next, Opened, Orderly, EnabledRun, Run;
    RunSnoc(Opened(found), es, e);
    assert es[..|es|] == es && (es + [e])[..|es| + 1] == es + [e];
    forall k | 0 <= k <= |es| ensures (es + [e])[..k] == es[..k] { }
    assert Orderly(Opened(found)) by { OpenedIsUnspent(found); }
    RunOrderly(Opened(found), es);
  }

  /** Refresh `i` was answered with tokens that were read. */
  ghost predicate ReadIn(found: Option<Tokens>, es: seq<Event>, i: nat) {
    exists k :: 0 <= k < |es| && es[k].RefreshReads? && After(found, es, k).inFlight == Some(i)
  }

  lemma ReadInSnoc(found: Option<Tokens>, es: seq<Event>, e: Event, i: nat)
    requires Happens(found, es + [e])
    ensures ReadIn(found, es + [e], i)
       <==> ReadIn(found, es, i) || (e.RefreshReads? && After(found, es, |es|).inFlight == Some(i))
  {
    hide After, Happens;
    HappensSnoc(found, es, e);
    var all := es + [e];
    if ReadIn(found, es, i) {
      var k :| 0 <= k < |es| && es[k].RefreshReads? && After(found, es, k).inFlight == Some(i);
      assert all[k].RefreshReads? && After(found, all, k).inFlight == Some(i);
    }
    if ReadIn(found, all, i) {
      var k :| 0 <= k < |all| && all[k].RefreshReads? && After(found, all, k).inFlight == Some(i);
      assert k < |es| ==> es[k] == all[k] && After(found, es, k) == After(found, all, k);
    }
    if e.RefreshReads? && After(found, es, |es|).inFlight == Some(i) {
      assert all[|es|] == e && After(found, all, |es|) == After(found, es, |es|);
    }
  }

  predicate Brought(s: State, i: nat) {
    i < |s.refreshes| && s.refreshes[i].stage.Resolved? && s.refreshes[i].stage.next.Some?
  }

  lemma BroughtStep(s: State, e: Event, i: nat)
    requires Orderly(s) && Enabled(s, e)
    ensures Brought(Next(s, e), i) <==> Brought(s, i) || (e.RefreshReads? && s.inFlight == Some(i))
  {
    hide AllDisciplined;
  }

  /** A refresh holds tokens exactly when its answer was read. */
  lemma {:induction false} BroughtExactly(found: Option<Tokens>, es: seq<Event>, i: nat)
    requires Happens(found, es)
    ensures Brought(After(found, es, |es|), i) <==> ReadIn(found, es, i)
    decreases |es|
  {
    hide Brought, ReadIn, Enabled, Next, Happens, Orderly;
    if es == [] {
      NothingBrought(found, i);
    } else {
      var front, e := es[..|es| - 1], es[|es| - 1];
      assert es == front + [e];
      HappensSnoc(found, front, e);
      BroughtExactly(found, front, i);
      ReadInSnoc(found, front, e, i);
      BroughtStep(After(found, front, |front|), e, i);
    }
  }

  lemma NothingBrought(found: Option<Tokens>, i: nat)
    ensures !Brought(After(found, [], 0), i) && !ReadIn(found, [], i)
  {
  }

  /** A request answered 401 goes out a second time exactly when the refresh it waited for was
      answered with tokens, wherever in the run that happened. */
  lemma ReplayedExactly(found: Option<Tokens>, es: seq<Event>, id: Id)
    requires Happens(found, es + [Resumes(id)])
    ensures var (s, t) := (After(found, es, |es|), After(found, es + [Resumes(id)], |es| + 1));
            && id in s.requests && id in t.requests && s.requests[id].phase.Waiting?
            && (t.requests[id].phase.Second? <==> ReadIn(found, es, s.requests[id].phase.on))
            && (t.requests[id].phase.Failing? <==> !ReadIn(found, es, s.requests[id].phase.on))
  {
    hide After, Happens, ReadIn, Next, Orderly;
    HappensSnoc(found, es, Resumes(id));
    var s := After(found, es, |es|);
    BroughtExactly(found, es, s.requests[id].phase.on);
    ResumesExactly(s, id);
  }

  /* ---- why a session ends ---- */

  /** Its 401 came with no session held, or the refresh it waited for brought none. */
  ghost predicate NoHelp(found: Option<Tokens>, es: seq<Event>, id: Id) {
    exists k :: 0 <= k < |es| && NoHelpAt(After(found, es, k), es[k], id)
  }

  predicate NoHelpAt(s: State, e: Event, id: Id) {
    || (e.Responds? && e.id == id && s.tokens.None?)
    || (e == Resumes(id) && id in s.requests && s.requests[id].phase.Waiting? && !Brought(s, s.requests[id].phase.on))
  }

  ghost predicate Justified(found: Option<Tokens>, es: seq<Event>, id: Id) {
    var s := After(found, es, |es|);
    id in s.requests && s.requests[id].phase.Failing? ==>
      s.requests[id].anonymous || s.requests[id].sent == 2 || NoHelp(found, es, id)
  }

  lemma NoHelpSnoc(found: Option<Tokens>, es: seq<Event>, e: Event, id: Id)
    requires Happens(found, es + [e]) && (NoHelp(found, es, id) || NoHelpAt(After(found, es, |es|), e, id))
    ensures NoHelp(found, es + [e], id)
  {
    hide After, Happens, NoHelpAt;
    HappensSnoc(found, es, e);
    var all := es + [e];
    if NoHelp(found, es, id) {
      var k :| 0 <= k < |es| && NoHelpAt(After(found, es, k), es[k], id);
      assert NoHelpAt(After(found, all, k), all[k], id);
    } else {
      assert NoHelpAt(After(found, all, |es|), all[|es|], id);
    }
  }

  /** A 401 comes to stand in four ways only. */
  lemma FailsStep(s: State, e: Event, id: Id)
    requires Orderly(s) && Enabled(s, e) && id in Next(s, e).requests && Next(s, e).requests[id].phase.Failing?
    ensures var r := Next(s, e).requests[id];
            || r.anonymous || r.sent == 2 || NoHelpAt(s, e, id) || (id in s.requests && s.requests[id] == r)
  {
    hide SingleFlight;
    if id in s.requests { assert Disciplined(s, s.requests[id]); }
  }

  lemma {:induction false} AlwaysJustified(found: Option<Tokens>, es: seq<Event>, id: Id)
    requires Happens(found, es)
    ensures Justified(found, es, id)
    decreases |es|
  {
    if es == [] {
      assert After(found, es, 0) == Opened(found);
    } else {
      hide After, Happens, NoHelp, NoHelpAt, Next, Enabled, Orderly;
      var front, e := es[..|es| - 1], es[|es| - 1];
      assert es == front + [e];
      HappensSnoc(found, front, e);
      AlwaysJustified(found, front, id);
      var s := After(found, front, |front|);
      if id in Next(s, e).requests && Next(s, e).requests[id].phase.Failing? {
        FailsStep(s, e, id);
        if NoHelp(found, front, id) || NoHelpAt(s, e, id) { NoHelpSnoc(found, front, e, id); }
      }
    }
  }

  /** In any run a 401 ends the session only if its request was anonymous, or came back to a tab
      with no session, or waited for a refresh that brought none, or had been sent twice. */
  lemma EndsForCause(found: Option<Tokens>, es: seq<Event>, id: Id)
    requires Happens(found, es + [ReadsError(id)])
    ensures var s := After(found, es, |es|);
            && id in s.requests && s.requests[id].phase.Failing?
            && (s.requests[id].anonymous || s.requests[id].sent == 2 || NoHelp(found, es, id))
  {
    hide After, Happens, NoHelp, Orderly;
    HappensSnoc(found, es, ReadsError(id));
    AlwaysJustified(found, es, id);
  }

  /** A tab with one request waiting, at the moment its refresh has been read. */
  function Renewed(held: Tokens, next: Tokens, id: Id): (s: State) {
    State(Some(next), None, [Refresh(held.refresh, Resolved(Some(next)))],
          map[id := Request(false, 1, Waiting(0), None)], {held.refresh, next.refresh})
  }

  lemma UntilRenewed(held: Tokens, next: Tokens, id: Id) returns (s1: State, s2: State, s3: State)
    requires next.refresh != held.refresh
    ensures var s0 := Opened(Some(held));
            && Enabled(s0, Start(id, false)) && s1 == Next(s0, Start(id, false))
            && Enabled(s1, Responds(id, 401)) && s2 == Next(s1, Responds(id, 401))
            && Enabled(s2, RefreshResponds(true)) && s3 == Next(s2, RefreshResponds(true))
            && Enabled(s3, RefreshReads(next)) && Next(s3, RefreshReads(next)) == Renewed(held, next, id)
  {
    s1 := Next(Opened(Some(held)), Start(id, false));
    s2 := Next(s1, Responds(id, 401));
    assert s2.refreshes == [Refresh(held.refresh, Asking)];
    assert s2.requests == map[id := Request(false, 1, Waiting(0), None)];
    s3 := Next(s2, RefreshResponds(true));
    assert s3.refreshes == [Refresh(held.refresh, Reading)];
  }

  lemma SinceRenewed(held: Tokens, next: Tokens, id: Id) returns (s5: State, s6: State)
    ensures var s4 := Renewed(held, next, id);
            && Enabled(s4, Resumes(id)) && s5 == Next(s4, Resumes(id))
            && Enabled(s5, Responds(id, 200)) && s6 == Next(s5, Responds(id, 200))
            && s6.tokens == Some(next) && s6.inFlight.None? && id in s6.requests
            && s6.requests[id] == Request(false, 2, Ended, Some(0))
  {
    s5 := Next(Renewed(held, next, id), Resumes(id));
    s6 := Next(s5, Responds(id, 200));
  }

  /** An expired access token costs nobody the session: the request is answered in the end, on
      its second sending, and the tab holds the new tokens. */
  lemma ExpiredTokenRecovers(held: Tokens, next: Tokens, id: Id)
    requires next.refresh != held.refresh
    ensures var es := [Start(id, false), Responds(id, 401), RefreshResponds(true), RefreshReads(next), Resumes(id),
                       Responds(id, 200)];
            && Happens(Some(held), es)
            && var s := After(Some(held), es, 6);
               s.tokens == Some(next) && s.inFlight.None? && id in s.requests
               && s.requests[id] == Request(false, 2, Ended, Some(0))
  {
    hide Enabled, Next, Opened, Run, EnabledRun;
    var es := [Start(id, false), Responds(id, 401), RefreshResponds(true), RefreshReads(next), Resumes(id),
               Responds(id, 200)];
    var s1, s2, s3 := UntilRenewed(held, next, id);
    var s5, s6 := SinceRenewed(held, next, id);
    var ss := [Opened(Some(held)), s1, s2, s3, Renewed(held, next, id), s5, s6];
    Chained(ss, es, 6);
    assert es[..6] == es;
  }

  /** Two requests are enough to present a token twice: the first one's refresh is answered, but
      the answer is lost; the second one's 401 then presents the same token again. */
  lemma LostAnswerRepeats(held: Tokens, a: Id, b: Id)
    requires a != b
    ensures var es := [Start(a, false), Start(b, false), Responds(a, 401), RefreshLost, Responds(b, 401)];
            Happens(Some(held), es) && !NeverTwice(After(Some(held), es, 5))
  {
    hide Enabled, Next, Opened, Run, EnabledRun, NeverTwice;
    var es := [Start(a, false), Start(b, false), Responds(a, 401), RefreshLost, Responds(b, 401)];
    var s1, s2, s3 := BothWaiting(held, a, b);
    var s4, s5 := AnswerLost(held, a, b);
    var ss := [Opened(Some(held)), s1, s2, Alone(held, a, b), s4, s5];
    Chained(ss, es, 5);
    assert es[..5] == es;
  }

  /** A tab with two requests, one of them waiting for a refresh. */
  function Alone(held: Tokens, a: Id, b: Id): (s: State) {
    State(Some(held), Some(0), [Refresh(held.refresh, Asking)],
          map[a := Request(false, 1, Waiting(0), None), b := Request(false, 1, First, None)], {held.refresh})
  }

  lemma BothWaiting(held: Tokens, a: Id, b: Id) returns (s1: State, s2: State, s3: State)
    requires a != b
    ensures var s0 := Opened(Some(held));
            && Enabled(s0, Start(a, false)) && s1 == Next(s0, Start(a, false))
            && Enabled(s1, Start(b, false)) && s2 == Next(s1, Start(b, false))
            && Enabled(s2, Responds(a, 401)) && s3 == Next(s2, Responds(a, 401)) && s3 == Alone(held, a, b)
  {
    s1 := Next(Opened(Some(held)), Start(a, false));
    s2 := Next(s1, Start(b, false));
    s3 := Next(s2, Responds(a, 401));
    assert s3.refreshes == [Refresh(held.refresh, Asking)];
  }

  lemma AnswerLost(held: Tokens, a: Id, b: Id) returns (s4: State, s5: State)
    requires a != b
    ensures var s3 := Alone(held, a, b);
            && Enabled(s3, RefreshLost) && s4 == Next(s3, RefreshLost)
            && Enabled(s4, Responds(b, 401)) && s5 == Next(s4, Responds(b, 401)) && !NeverTwice(s5)
  {
    s4 := Next(Alone(held, a, b), RefreshLost);
    s5 := Next(s4, Responds(b, 401));
    assert s5.refreshes[0].presented == s5.refreshes[1].presented;
  }

  /** A run read off the states it goes through. */
  lemma {:induction false} Chained(ss: seq<State>, es: seq<Event>, k: nat)
    requires |ss| == |es| + 1 && k <= |es|
    requires forall i :: 0 <= i < |es| ==> Enabled(ss[i], es[i]) && ss[i + 1] == Next(ss[i], es[i])
    ensures EnabledRun(ss[0], es[..k]) && Run(ss[0], es[..k]) == ss[k]
  {
    hide Enabled, Next;
    if k > 0 {
      Chained(ss, es, k - 1);
      RunSnoc(ss[0], es[..k - 1], es[k - 1]);
      assert es[..k] == es[..k - 1] + [es[k - 1]];
    }
  }
}
