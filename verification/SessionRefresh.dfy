/** One tab's requests sharing one session: a request answered 401 waits for a single refresh
    of the token and is sent once more. Each event is what runs between two awaits. */
module SessionRefresh {
  import opened Text
  import opened PriceRules

  datatype Tokens = Tokens(access: Id, refresh: Id)

  datatype Phase =
    | First              // sent, no response yet
    | Waiting(on: nat)   // answered 401, awaiting that refresh
    | Second             // sent again
    | Failing            // a 401 that stands, its body being read
    | Ended

  /** `renewed` is the refresh a second sending followed. */
  datatype Request = Request(anonymous: bool, sent: nat, phase: Phase, renewed: Option<nat>)

  datatype Stage = Asking | Reading | Resolved(next: Option<Tokens>)

  datatype Refresh = Refresh(presented: Id, stage: Stage)

  /** `inFlight` is the promise the tab remembers; `refreshes` are all it ever started. */
  datatype State = State(
    tokens: Option<Tokens>,
    inFlight: Option<nat>,
    refreshes: seq<Refresh>,
    requests: map<Id, Request>,
    seen: set<Id>)

  datatype Event =
    | Start(id: Id, anonymous: bool)
    | NetworkFails(id: Id)
    | Responds(id: Id, status: int)
    | Resumes(id: Id)
    | ReadsError(id: Id)
    | RefreshResponds(ok: bool)
    | RefreshReads(next: Tokens)
    | RefreshLost
    | SignIn(next: Tokens)
    | SignOut

  predicate Sent(s: State, id: Id) { id in s.requests && (s.requests[id].phase.First? || s.requests[id].phase.Second?) }

  predicate Running(s: State) {
    s.inFlight.Some? && s.inFlight.value < |s.refreshes| && !s.refreshes[s.inFlight.value].stage.Resolved?
  }

  /** What can happen next. A server hands out tokens it never handed out before. */
  predicate Enabled(s: State, e: Event) {
    match e
    case Start(id, _) => id !in s.requests
    case NetworkFails(id) => Sent(s, id)
    case Responds(id, _) => Sent(s, id)
    case Resumes(id) => id in s.requests && s.requests[id].phase.Waiting? && s.requests[id].phase.on < |s.refreshes|
                        && s.refreshes[s.requests[id].phase.on].stage.Resolved?
    case ReadsError(id) => id in s.requests && s.requests[id].phase.Failing?
    case RefreshResponds(_) => Running(s) && s.refreshes[s.inFlight.value].stage.Asking?
    case RefreshReads(next) => Running(s) && s.refreshes[s.inFlight.value].stage.Reading? && next.refresh !in s.seen
    case RefreshLost => Running(s)
    case SignIn(next) => next.refresh !in s.seen
    case SignOut => true
  }

  function Put(s: State, id: Id, r: Request): (t: State) { s.(requests := s.requests[id := r]) }

  function Settle(s: State, stage: Stage): (t: State)
    requires Running(s)
  {
    var r := s.inFlight.value;
    s.(refreshes := s.refreshes[r := s.refreshes[r].(stage := stage)],
       inFlight := if stage.Resolved? then None else s.inFlight)
  }

  /** `refreshTokens` up to its first await: join the refresh in flight, or start one with the
      token held now. */
  function Renewing(s: State): (r: (State, nat))
    requires s.tokens.Some?
  {
    if s.inFlight.Some? then (s, s.inFlight.value)
    else (s.(refreshes := s.refreshes + [Refresh(s.tokens.value.refresh, Asking)],
             inFlight := Some(|s.refreshes|)), |s.refreshes|)
  }

  function Next(s: State, e: Event): (t: State)
    requires Enabled(s, e)
  {
    match e
    case Start(id, anonymous) => Put(s, id, Request(anonymous, 1, First, None))
    case NetworkFails(id) => Put(s, id, s.requests[id].(phase := Ended))
    case Responds(id, status) =>
      var r := s.requests[id];
      if status != 401 then Put(s, id, r.(phase := Ended))
      else if r.phase.First? && !r.anonymous && s.tokens.Some? then
        var (t, on) := Renewing(s);
        Put(t, id, r.(phase := Waiting(on)))
      else Put(s, id, r.(phase := Failing))
    case Resumes(id) =>
      var r := s.requests[id];
      if s.refreshes[r.phase.on].stage.next.None? then Put(s, id, r.(phase := Failing))
      else Put(s, id, r.(phase := Second, sent := r.sent + 1, renewed := Some(r.phase.on)))
    case ReadsError(id) => Put(s, id, s.requests[id].(phase := Ended)).(tokens := None)
    case RefreshResponds(ok) => if ok then Settle(s, Reading) else Settle(s, Resolved(None)).(tokens := None)
    case RefreshReads(next) => Settle(s, Resolved(Some(next))).(tokens := Some(next), seen := s.seen + {next.refresh})
    case RefreshLost => Settle(s, Resolved(None))
    case SignIn(next) => s.(tokens := Some(next), seen := s.seen + {next.refresh})
    case SignOut => s.(tokens := None)
  }

  predicate EnabledRun(s: State, es: seq<Event>)
    decreases |es|
  {
    es != [] ==> Enabled(s, es[0]) && EnabledRun(Next(s, es[0]), es[1..])
  }

  function Run(s: State, es: seq<Event>): (t: State)
    requires EnabledRun(s, es)
    decreases |es|
  {
    if es == [] then s else Run(Next(s, es[0]), es[1..])
  }

  /** A tab just opened, with the session it found stored. */
  function Opened(found: Option<Tokens>): (s: State) {
    State(found, None, [], map[], if found.Some? then {found.value.refresh} else {})
  }

  /* ---- one refresh at a time ---- */

  /** The tab remembers a refresh exactly while it is running. */
  ghost predicate SingleFlight(s: State) {
    forall i :: 0 <= i < |s.refreshes| ==> (!s.refreshes[i].stage.Resolved? <==> s.inFlight == Some(i))
  }

  ghost predicate FlightKnown(s: State) { s.inFlight.Some? ==> s.inFlight.value < |s.refreshes| }

  /** A request goes out at most twice, and the second time only behind a refresh that it
      waited for and that brought a token. */
  predicate Disciplined(s: State, r: Request) {
    && 1 <= r.sent <= 2
    && (r.phase.First? ==> r.sent == 1) && (r.phase.Second? ==> r.sent == 2)
    && (r.phase.Waiting? ==> r.sent == 1 && !r.anonymous && r.phase.on < |s.refreshes|)
    && (r.sent == 2 ==> !r.anonymous && r.renewed.Some? && r.renewed.value < |s.refreshes|
                        && s.refreshes[r.renewed.value].stage.Resolved?
                        && s.refreshes[r.renewed.value].stage.next.Some?)
  }

  ghost predicate AllDisciplined(s: State) { forall id :: id in s.requests ==> Disciplined(s, s.requests[id]) }

  ghost predicate Orderly(s: State) { SingleFlight(s) && FlightKnown(s) && AllDisciplined(s) }

  lemma NextSingle(s: State, e: Event)
    requires SingleFlight(s) && FlightKnown(s) && Enabled(s, e)
    ensures SingleFlight(Next(s, e)) && FlightKnown(Next(s, e))
  {
  }

  lemma NextOrderly(s: State, e: Event)
    requires Orderly(s) && Enabled(s, e)
    ensures Orderly(Next(s, e))
  {
    var t := Next(s, e);
    NextSingle(s, e);
    hide SingleFlight;
    forall id | id in t.requests ensures Disciplined(t, t.requests[id]) {
      if id in s.requests { assert Disciplined(s, s.requests[id]); }
    }
  }

  lemma {:induction false} RunOrderly(s: State, es: seq<Event>)
    requires Orderly(s) && EnabledRun(s, es)
    ensures Orderly(Run(s, es))
    decreases |es|
  {
    hide Orderly, Enabled, Next;
    if es != [] {
      NextOrderly(s, es[0]);
      RunOrderly(Next(s, es[0]), es[1..]);
    }
  }

  /** In one tab, over any interleaving: never two refreshes running, every request sent at
      most twice, and the second time only after a refresh that succeeded. */
  lemma OneRefreshOneReplay(found: Option<Tokens>, es: seq<Event>)
    requires EnabledRun(Opened(found), es)
    ensures var s := Run(Opened(found), es);
            && (forall i, j :: 0 <= i < |s.refreshes| && 0 <= j < |s.refreshes|
                  ==> !s.refreshes[i].stage.Resolved? && !s.refreshes[j].stage.Resolved? ==> i == j)
            && AllDisciplined(s)
  {
    hide Run, EnabledRun;
    RunOrderly(Opened(found), es);
  }

  /** Every refresh presents the token held at the moment it starts, and starts only when none
      is running. */
  lemma PresentsHeldToken(s: State, e: Event)
    requires Orderly(s) && Enabled(s, e)
    ensures var t := Next(s, e);
            && |s.refreshes| <= |t.refreshes| <= |s.refreshes| + 1
            && (forall i :: 0 <= i < |s.refreshes| ==> t.refreshes[i].presented == s.refreshes[i].presented)
            && (|t.refreshes| > |s.refreshes| ==>
                  s.inFlight.None? && s.tokens.Some? && t.refreshes[|s.refreshes|].presented == s.tokens.value.refresh)
  {
    hide AllDisciplined;
  }

  /* ---- no token presented twice ---- */

  ghost predicate Presented(s: State, token: Id) {
    exists i :: 0 <= i < |s.refreshes| && s.refreshes[i].presented == token
  }

  ghost predicate NeverTwice(s: State) {
    forall i, j :: 0 <= i < j < |s.refreshes| ==> s.refreshes[i].presented != s.refreshes[j].presented
  }

  /** The token held has been presented only if the refresh presenting it is running. */
  ghost predicate HeldIsUnspent(s: State) {
    s.tokens.Some? && Presented(s, s.tokens.value.refresh) ==>
      Running(s) && s.refreshes[s.inFlight.value].presented == s.tokens.value.refresh
  }

  ghost predicate AllSeen(s: State) {
    && (s.tokens.Some? ==> s.tokens.value.refresh in s.seen)
    && forall i :: 0 <= i < |s.refreshes| ==> s.refreshes[i].presented in s.seen
  }

  ghost predicate Unspent(s: State) { NeverTwice(s) && HeldIsUnspent(s) && AllSeen(s) }

  /** The one hazard: an answer lost while the token it was asked with is still the one held. */
  predicate LosesHeld(s: State, e: Event)
    requires Enabled(s, e)
  {
    e.RefreshLost? && s.tokens.Some? && s.tokens.value.refresh == s.refreshes[s.inFlight.value].presented
  }

  /** One event keeps the held token unspent exactly when it is not that hazard. */
  lemma UnspentExactly(s: State, e: Event)
    requires Orderly(s) && Unspent(s) && Enabled(s, e)
    ensures Unspent(Next(s, e)) <==> !LosesHeld(s, e)
  {
    hide AllDisciplined;
    var t := Next(s, e);
    PresentsHeldToken(s, e);
    assert FlightKnown(s);
    if LosesHeld(s, e) {
      var r := s.inFlight.value;
      assert t.refreshes[r].presented == t.tokens.value.refresh && Presented(t, t.tokens.value.refresh);
    } else if e.Responds? && |t.refreshes| > |s.refreshes| {
      assert !Presented(s, s.tokens.value.refresh);
    } else {
      forall token | Presented(t, token) ensures Presented(s, token) {
        var i :| 0 <= i < |t.refreshes| && t.refreshes[i].presented == token;
        assert s.refreshes[i].presented == token;
      }
      SameFlight(s, e);
    }
  }

  lemma SameFlight(s: State, e: Event)
    requires Orderly(s) && Unspent(s) && Enabled(s, e) && !LosesHeld(s, e) && |Next(s, e).refreshes| == |s.refreshes|
    requires forall token :: Presented(Next(s, e), token) ==> Presented(s, token)
    ensures HeldIsUnspent(Next(s, e))
  {
    hide AllDisciplined, Presented;
    var t := Next(s, e);
    if t.tokens.Some? && Presented(t, t.tokens.value.refresh) {
      var token := t.tokens.value.refresh;
      assert token in s.seen by { SeenWhenPresented(s, token); }
    }
  }

  lemma SeenWhenPresented(s: State, token: Id)
    requires AllSeen(s) && Presented(s, token)
    ensures token in s.seen
  {
  }

  ghost predicate NoHeldLost(s: State, es: seq<Event>)
    requires EnabledRun(s, es)
    decreases |es|
  {
    es != [] ==> !LosesHeld(s, es[0]) && NoHeldLost(Next(s, es[0]), es[1..])
  }

  /** As long as no refresh answer is lost while its token is still held, no refresh token is
      ever presented twice, whatever the requests, sign-ins and sign-outs in between. */
  lemma {:induction false} NeverPresentedTwice(s: State, es: seq<Event>)
    requires Orderly(s) && Unspent(s) && EnabledRun(s, es) && NoHeldLost(s, es)
    ensures NeverTwice(Run(s, es))
    decreases |es|
  {
    hide Orderly, NeverTwice, HeldIsUnspent, AllSeen, Enabled, Next, LosesHeld;
    if es != [] {
      NextOrderly(s, es[0]);
      UnspentExactly(s, es[0]);
      NeverPresentedTwice(Next(s, es[0]), es[1..]);
    }
  }

  lemma OpenedIsUnspent(found: Option<Tokens>)
    ensures Orderly(Opened(found)) && Unspent(Opened(found))
  {
  }

  /** So in a tab just opened, every refresh it ever starts presents a token of its own. */
  lemma OpenedPresentsOnce(found: Option<Tokens>, es: seq<Event>)
    requires EnabledRun(Opened(found), es) && NoHeldLost(Opened(found), es)
    ensures var s := Run(Opened(found), es);
            forall i, j :: 0 <= i < j < |s.refreshes| ==> s.refreshes[i].presented != s.refreshes[j].presented
  {
    hide Run, EnabledRun, NoHeldLost;
    OpenedIsUnspent(found);
    NeverPresentedTwice(Opened(found), es);
  }

  /* ---- signing out ---- */

  ghost predicate NobodySignsIn(es: seq<Event>) { forall e :: e in es ==> !e.SignIn? }

  /** Without tokens, one event brings some exactly when a person signs in or a refresh that
      was started before is answered. */
  lemma TokensReturnExactly(s: State, e: Event)
    requires s.tokens.None? && Enabled(s, e)
    ensures Next(s, e).tokens.Some? <==> e.SignIn? || e.RefreshReads?
    ensures s.inFlight.None? && !e.SignIn? ==> Next(s, e).tokens.None? && Next(s, e).inFlight.None?
  {
  }

  lemma {:induction false} StaysSignedOut(s: State, es: seq<Event>)
    requires s.tokens.None? && s.inFlight.None? && EnabledRun(s, es) && NobodySignsIn(es)
    ensures Run(s, es).tokens.None?
    decreases |es|
  {
    hide Enabled, Next;
    if es != [] {
      assert es[0] in es && forall e :: e in es[1..] ==> e in es;
      TokensReturnExactly(s, es[0]);
      StaysSignedOut(Next(s, es[0]), es[1..]);
    }
  }

  ghost predicate ComesBack(s: State, es: seq<Event>) {
    NobodySignsIn(es) && EnabledRun(s, es) && Run(s, es).tokens.Some?
  }

  lemma ReadingRevives(s: State, next: Tokens)
    requires Enabled(s, RefreshReads(next))
    ensures ComesBack(s, [RefreshReads(next)])
  {
    var es := [RefreshReads(next)];
    var t := Next(s, es[0]);
    assert es[1..] == [];
    assert EnabledRun(t, []) && Run(t, []) == t;
  }

  lemma ComesBackAfter(s: State, e: Event, es: seq<Event>)
    requires Enabled(s, e) && !e.SignIn? && ComesBack(Next(s, e), es)
    ensures ComesBack(s, [e] + es)
  {
    hide Enabled, Next;
    assert ([e] + es)[1..] == es;
  }

  /** A refresh left running is all it takes: its answer installs tokens again. */
  lemma RefreshRevives(s: State, next: Tokens)
    requires Orderly(s) && s.inFlight.Some? && next.refresh !in s.seen
    ensures exists es :: ComesBack(s, es)
  {
    hide AllDisciplined, ComesBack, EnabledRun, Run;
    assert Running(s);
    if s.refreshes[s.inFlight.value].stage.Reading? {
      ReadingRevives(s, next);
    } else {
      ReadingRevives(Next(s, RefreshResponds(true)), next);
      ComesBackAfter(s, RefreshResponds(true), [RefreshReads(next)]);
    }
  }

  /** A tab without tokens stays without them until somebody signs in, exactly when no refresh
      was running. `next` is any session the server has not handed out yet. */
  lemma SignedOutExactly(s: State, next: Tokens)
    requires Orderly(s) && s.tokens.None? && next.refresh !in s.seen
    ensures (forall es :: !ComesBack(s, es)) <==> s.inFlight.None?
  {
    hide Orderly;
    if s.inFlight.None? {
      forall es ensures !ComesBack(s, es) {
        if NobodySignsIn(es) && EnabledRun(s, es) { StaysSignedOut(s, es); }
      }
    } else {
      RefreshRevives(s, next);
    }
  }

  /* ---- the tab's own variables ---- */

  /** The module variables, changed step by step. Each method is one step of the machine. */
  class Client {
    var tokens: Option<Tokens>
    var inFlight: Option<nat>
    var refreshes: seq<Refresh>
    var requests: map<Id, Request>
    ghost var seen: set<Id>

    ghost function Abstract(): (s: State)
      reads this
    {
      State(tokens, inFlight, refreshes, requests, seen)
    }

    ghost predicate Valid()
      reads this
    {
      Orderly(Abstract())
    }

    constructor (found: Option<Tokens>)
      ensures Valid() && Abstract() == Opened(found)
    {
      tokens, inFlight, refreshes, requests := found, None, [], map[];
      seen := if found.Some? then {found.value.refresh} else {};
    }

    method SetTokens(next: Option<Tokens>)
      modifies this`tokens, this`seen
      ensures tokens == next && seen == old(seen) + if next.Some? then {next.value.refresh} else {}
    {
      tokens := next;
      seen := seen + if next.Some? then {next.value.refresh} else {};
    }

    /** `rawRequest`: one more request leaves with whatever token is held. */
    method RawRequest(id: Id, anonymous: bool)
      requires Valid() && Enabled(Abstract(), Start(id, anonymous))
      modifies this`requests
      ensures Valid() && Abstract() == Next(old(Abstract()), Start(id, anonymous))
    {
      NextOrderly(Abstract(), Start(id, anonymous));
      requests := requests[id := Request(anonymous, 1, First, None)];
    }

    /** `refreshTokens`, as far as it runs before it awaits. */
    method RefreshTokens() returns (on: nat)
      requires tokens.Some?
      modifies this`refreshes, this`inFlight
      ensures (Abstract(), on) == Renewing(old(Abstract()))
    {
      if inFlight.Some? { return inFlight.value; }
      on := |refreshes|;
      refreshes := refreshes + [Refresh(tokens.value.refresh, Asking)];
      inFlight := Some(on);
    }

    /** A response to a request: done, a 401 that stands, or a 401 worth one refresh. */
    method OnResponse(id: Id, status: int)
      requires Valid() && Enabled(Abstract(), Responds(id, status))
      modifies this
      ensures Valid() && Abstract() == Next(old(Abstract()), Responds(id, status))
    {
      NextOrderly(Abstract(), Responds(id, status));
      hide Orderly;
      var r := requests[id];
      if status != 401 {
        r := r.(phase := Ended);
      } else if !r.phase.First? || r.anonymous || tokens.None? {
        r := r.(phase := Failing);
      } else {
        var on := RefreshTokens();
        r := r.(phase := Waiting(on));
      }
      requests := requests[id := r];
    }

    /** The refresh comes back, or fails to: the promise is forgotten in every case. */
    method OnRefresh(ok: bool)
      requires Valid() && Enabled(Abstract(), RefreshResponds(ok))
      modifies this
      ensures Valid() && Abstract() == Next(old(Abstract()), RefreshResponds(ok))
    {
      NextOrderly(Abstract(), RefreshResponds(ok));
      hide Orderly;
      var r := inFlight.value;
      if !ok {
        SetTokens(None);
        refreshes := refreshes[r := refreshes[r].(stage := Resolved(None))];
        inFlight := None;
      } else {
        refreshes := refreshes[r := refreshes[r].(stage := Reading)];
      }
    }

    method OnRefreshBody(next: Tokens)
      requires Valid() && Enabled(Abstract(), RefreshReads(next))
      modifies this
      ensures Valid() && Abstract() == Next(old(Abstract()), RefreshReads(next))
    {
      NextOrderly(Abstract(), RefreshReads(next));
      hide Orderly;
      var r := inFlight.value;
      SetTokens(Some(next));
      refreshes := refreshes[r := refreshes[r].(stage := Resolved(Some(next)))];
      inFlight := None;
    }

    method OnRefreshLost()
      requires Valid() && Enabled(Abstract(), RefreshLost)
      modifies this
      ensures Valid() && Abstract() == Next(old(Abstract()), RefreshLost)
    {
      NextOrderly(Abstract(), RefreshLost);
      hide Orderly;
      var r := inFlight.value;
      refreshes := refreshes[r := refreshes[r].(stage := Resolved(None))];
      inFlight := None;
    }

    /** A request that waited goes on: sent again behind a new token, or failed as it was. */
    method OnResume(id: Id)
      requires Valid() && Enabled(Abstract(), Resumes(id))
      modifies this`requests
      ensures Valid() && Abstract() == Next(old(Abstract()), Resumes(id))
    {
      NextOrderly(Abstract(), Resumes(id));
      hide Orderly;
      var r := requests[id];
      if refreshes[r.phase.on].stage.next.None? {
        r := r.(phase := Failing);
      } else {
        r := r.(phase := Second, sent := r.sent + 1, renewed := Some(r.phase.on));
      }
      requests := requests[id := r];
    }

    /** The body of a 401 that stands has been read: the session is over. */
    method OnUnauthorized(id: Id)
      requires Valid() && Enabled(Abstract(), ReadsError(id))
      modifies this
      ensures Valid() && Abstract() == Next(old(Abstract()), ReadsError(id))
    {
      NextOrderly(Abstract(), ReadsError(id));
      hide Orderly;
      SetTokens(None);
      requests := requests[id := requests[id].(phase := Ended)];
    }
  }
}
