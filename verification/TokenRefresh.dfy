/**
 The API client's token refresh (frontend/src/lib/api.ts) over the token fields of the auth store
 (frontend/src/stores/auth-store.ts).

 An event is one stretch of code between two awaits, or the arrival of an answer; events come in any order.
 Tokens are numbers. A flight is one post to the refresh endpoint.
 */
module TokenRefresh {
  import opened Prelude

  type Token = nat

  datatype Store = Store(access: Option<Token>, refresh: Option<Token>)

  const LOGGED_OUT := Store(None, None)

  /** Unanswered; then either answered (the `then` callback has run) or refused; settled once `finally` has run. */
  datatype Outcome = Unanswered | Answered(access: Token, stamp: nat, rotated: bool) | Refused

  datatype Flight = Flight(posted: Token, outcome: Outcome, settled: bool)

  /** A sent request carries a bearer token; awaited is the flight a retry waited for. */
  datatype Phase =
    | Idle
    | Sent(bearer: Option<Token>, awaited: Option<nat>)
    | Waiting(flight: nat)
    | Done

  datatype Request = Request(phase: Phase, retry: bool, sends: nat)

  /**
   promise is the module variable refreshPromise. accessLog lists every access token ever stored, in order;
   issued collects every refresh token ever stored.
   */
  datatype State = State(
    store: Store, promise: Option<nat>, flights: seq<Flight>, requests: seq<Request>,
    accessLog: seq<Token>, issued: set<Token>)

  datatype Event =
    | Send(i: nat)
    | Respond(i: nat)                                          // anything but a 401
    | Unauthorized(i: nat)                                     // a 401
    | Answer(f: nat, access: Token, refresh: Option<Token>)
    | Refuse(f: nat)
    | Settle(f: nat)                                           // the `finally` callback
    | Resume(i: nat)                                           // after `await refreshPromise`
    | Login(access: Token, newRefresh: Token)
    | Logout

  function SetRequest(s: State, i: nat, r: Request): State
    requires i < |s.requests|
  {
    s.(requests := s.requests[i := r])
  }

  function StoreTokens(s: State, access: Token, refresh: Option<Token>): State {
    s.(store := Store(Some(access), if refresh.Some? then refresh else s.store.refresh),
       accessLog := s.accessLog + [access],
       issued := if refresh.Some? then s.issued + {refresh.value} else s.issued)
  }

  /** The response interceptor on a 401, up to its await. */
  function OnUnauthorized(s: State, i: nat): State
    requires i < |s.requests|
  {
    var r := s.requests[i].(retry := true);
    if s.requests[i].retry then SetRequest(s, i, r.(phase := Done))
    else if s.store.refresh.None? then SetRequest(s, i, r.(phase := Done)).(store := LOGGED_OUT)
    else if s.promise.Some? then SetRequest(s, i, r.(phase := Waiting(s.promise.value)))
    else
      SetRequest(s, i, r.(phase := Waiting(|s.flights|))).(
        promise := Some(|s.flights|),
        flights := s.flights + [Flight(s.store.refresh.value, Unanswered, false)])
  }

  /** After the await: send again, through the request interceptor, or log out. */
  function OnResume(s: State, i: nat, f: nat): State
    requires i < |s.requests| && f < |s.flights|
  {
    var r := s.requests[i];
    match s.flights[f].outcome
    case Answered(access, _, _) =>
      var bearer := if s.store.access.Some? then s.store.access else Some(access);
      SetRequest(s, i, r.(phase := Sent(bearer, Some(f)), sends := r.sends + 1))
    case _ =>
      SetRequest(s, i, r.(phase := Done)).(store := LOGGED_OUT)
  }

  function Step(s: State, e: Event): State {
    match e
    case Send(i) =>
      if i < |s.requests| && s.requests[i].phase == Idle then
        SetRequest(s, i, Request(Sent(s.store.access, None), false, 1))
      else s
    case Respond(i) =>
      if i < |s.requests| && s.requests[i].phase.Sent? then SetRequest(s, i, s.requests[i].(phase := Done)) else s
    case Unauthorized(i) =>
      if i < |s.requests| && s.requests[i].phase.Sent? then OnUnauthorized(s, i) else s
    case Answer(f, access, refresh) =>
      if f < |s.flights| && s.flights[f].outcome == Unanswered then
        StoreTokens(s, access, refresh).(
          flights := s.flights[f := s.flights[f].(outcome := Answered(access, |s.accessLog|, refresh.Some?))])
      else s
    case Refuse(f) =>
      if f < |s.flights| && s.flights[f].outcome == Unanswered then
        s.(flights := s.flights[f := s.flights[f].(outcome := Refused)])
      else s
    case Settle(f) =>
      if f < |s.flights| && s.flights[f].outcome != Unanswered && !s.flights[f].settled then
        s.(flights := s.flights[f := s.flights[f].(settled := true)], promise := None)
      else s
    case Resume(i) =>
      if i < |s.requests| && s.requests[i].phase.Waiting? && s.requests[i].phase.flight < |s.flights|
        && s.flights[s.requests[i].phase.flight].settled then
        OnResume(s, i, s.requests[i].phase.flight)
      else s
    case Login(access, refresh) => StoreTokens(s, access, Some(refresh))
    case Logout => s.(store := LOGGED_OUT)
  }

  function Run(s: State, events: seq<Event>): State {
    if events == [] then s else Step(Run(s, events[..|events| - 1]), events[|events| - 1])
  }

  /** A page that has just loaded, with the tokens the store has persisted. */
  ghost predicate Initial(s: State) {
    && s.promise == None && s.flights == []
    && (forall i :: 0 <= i < |s.requests| ==> s.requests[i] == Request(Idle, false, 0))
    && s.accessLog == (if s.store.access.Some? then [s.store.access.value] else [])
    && s.issued == (if s.store.refresh.Some? then {s.store.refresh.value} else {})
  }

  // ---------- the client as the source has it ----------

  class Client {
    var store: Store
    var refreshPromise: Option<nat>
    var flights: seq<Flight>
    var requests: seq<Request>
    var accessLog: seq<Token>   // accessLog and issued record what was stored; the client never reads them
    var issued: set<Token>

    constructor (persisted: Store, n: nat)
      ensures Initial(Abstract()) && store == persisted && |requests| == n
    {
      store, refreshPromise, flights := persisted, None, [];
      requests := seq(n, _ => Request(Idle, false, 0));
      accessLog := if persisted.access.Some? then [persisted.access.value] else [];
      issued := if persisted.refresh.Some? then {persisted.refresh.value} else {};
    }

    ghost function Abstract(): State
      reads this
    {
      State(store, refreshPromise, flights, requests, accessLog, issued)
    }

    method OnRequest(i: nat)
      requires i < |requests| && requests[i].phase == Idle
      modifies this
      ensures Abstract() == Step(old(Abstract()), Send(i))
    {
      requests := requests[i := Request(Sent(store.access, None), false, 1)];
    }

    method OnUnauthorizedResponse(i: nat)
      requires i < |requests| && requests[i].phase.Sent?
      modifies this
      ensures Abstract() == Step(old(Abstract()), Unauthorized(i))
    {
      var r := requests[i];
      if r.retry {
        requests := requests[i := r.(phase := Done)];
        return;
      }
      r := r.(retry := true);
      if store.refresh.None? {
        store := LOGGED_OUT;
        requests := requests[i := r.(phase := Done)];
        return;
      }
      if refreshPromise.None? {
        refreshPromise := Some(|flights|);
        flights := flights + [Flight(store.refresh.value, Unanswered, false)];
      }
      requests := requests[i := r.(phase := Waiting(refreshPromise.value))];
    }

    method OnRefreshAnswer(f: nat, access: Token, refresh: Option<Token>)
      requires f < |flights| && flights[f].outcome == Unanswered
      modifies this
      ensures Abstract() == Step(old(Abstract()), Answer(f, access, refresh))
    {
      flights := flights[f := flights[f].(outcome := Answered(access, |accessLog|, refresh.Some?))];
      store := store.(access := Some(access));
      accessLog := accessLog + [access];
      if refresh.Some? {
        store := store.(refresh := refresh);
        issued := issued + {refresh.value};
      }
    }

    method OnRefreshRefused(f: nat)
      requires f < |flights| && flights[f].outcome == Unanswered
      modifies this
      ensures Abstract() == Step(old(Abstract()), Refuse(f))
    {
      flights := flights[f := flights[f].(outcome := Refused)];
    }

    method OnRefreshSettled(f: nat)
      requires f < |flights| && flights[f].outcome != Unanswered && !flights[f].settled
      modifies this
      ensures Abstract() == Step(old(Abstract()), Settle(f))
    {
      flights := flights[f := flights[f].(settled := true)];
      refreshPromise := None;
    }

    method AfterAwait(i: nat)
      requires i < |requests| && requests[i].phase.Waiting?
      requires requests[i].phase.flight < |flights| && flights[requests[i].phase.flight].settled
      modifies this
      ensures Abstract() == Step(old(Abstract()), Resume(i))
    {
      var r := requests[i];
      var f := r.phase.flight;
      match flights[f].outcome
      case Answered(newToken, _, _) =>
        var bearer := Some(newToken);
        if store.access.Some? { bearer := store.access; }
        requests := requests[i := r.(phase := Sent(bearer, Some(f)), sends := r.sends + 1)];
      case _ =>
        store := LOGGED_OUT;
        requests := requests[i := r.(phase := Done)];
    }

    method SetSession(access: Token, refresh: Token)
      modifies this
      ensures Abstract() == Step(old(Abstract()), Login(access, refresh))
    {
      store := Store(Some(access), Some(refresh));
      accessLog := accessLog + [access];
      issued := issued + {refresh};
    }

    method LogOut()
      modifies this
      ensures Abstract() == Step(old(Abstract()), Logout)
    {
      store := LOGGED_OUT;
    }
  }

  // ---------- one flight at a time, two sends at most, no older token ----------

  ghost predicate FlightsOk(s: State) {
    && (forall f :: 0 <= f < |s.flights| && !s.flights[f].settled ==> s.promise == Some(f))
    && (s.promise.Some? ==> s.promise.value < |s.flights| && !s.flights[s.promise.value].settled)
    && (forall f :: 0 <= f < |s.flights| && s.flights[f].settled ==> s.flights[f].outcome != Unanswered)
    && (forall f :: 0 <= f < |s.flights| && s.flights[f].outcome.Answered? ==>
        var o := s.flights[f].outcome; o.stamp < |s.accessLog| && s.accessLog[o.stamp] == o.access)
    && (s.store.access.Some? ==> s.accessLog != [] && s.store.access.value == s.accessLog[|s.accessLog| - 1])
  }

  /** The bearer of a retry: the token of the flight it waited for, or one stored later. */
  ghost predicate BearerOk(s: State, bearer: Option<Token>, f: nat) {
    && bearer.Some? && f < |s.flights| && s.flights[f].outcome.Answered?
    && exists j :: s.flights[f].outcome.stamp <= j < |s.accessLog| && s.accessLog[j] == bearer.value
  }

  ghost predicate RequestOk(s: State, r: Request) {
    match r.phase
    case Idle => r.sends == 0 && !r.retry
    case Sent(bearer, awaited) =>
      (r.sends == if r.retry then 2 else 1) && (r.retry <==> awaited.Some?)
      && (awaited.Some? ==> BearerOk(s, bearer, awaited.value))
    case Waiting(f) => r.retry && r.sends == 1 && f < |s.flights|
    case Done => r.sends <= 2
  }

  ghost predicate Inv(s: State) {
    FlightsOk(s) && forall i :: 0 <= i < |s.requests| ==> RequestOk(s, s.requests[i])
  }

  /** What the rest of the state may do under a request without harming it. */
  ghost predicate Extends(s: State, s': State) {
    && s.accessLog <= s'.accessLog
    && |s.flights| <= |s'.flights|
    && forall f :: 0 <= f < |s.flights| && s.flights[f].outcome.Answered? ==>
         s'.flights[f].outcome == s.flights[f].outcome
  }

  lemma RequestStaysOk(s: State, s': State, r: Request)
    requires RequestOk(s, r) && Extends(s, s')
    ensures RequestOk(s', r)
  {
    if r.phase.Sent? && r.phase.awaited.Some? {
      var f := r.phase.awaited.value;
      var j :| s.flights[f].outcome.stamp <= j < |s.accessLog| && s.accessLog[j] == r.phase.bearer.value;
      assert s'.accessLog[j] == s.accessLog[j];
    }
  }

  lemma PostKeepsFlights(s: State, i: nat)
    requires FlightsOk(s) && i < |s.requests|
    ensures Extends(s, OnUnauthorized(s, i)) && FlightsOk(OnUnauthorized(s, i))
  {
  }

  lemma AnswerKeepsFlights(s: State, e: Event)
    requires FlightsOk(s) && e.Answer?
    ensures Extends(s, Step(s, e)) && FlightsOk(Step(s, e))
  {
  }

  lemma CloseKeepsFlights(s: State, e: Event)
    requires FlightsOk(s) && (e.Refuse? || e.Settle?)
    ensures Extends(s, Step(s, e)) && FlightsOk(Step(s, e))
  {
  }

  lemma StepExtends(s: State, e: Event)
    requires FlightsOk(s)
    ensures Extends(s, Step(s, e)) && FlightsOk(Step(s, e))
  {
    match e
    case Unauthorized(i) => if i < |s.requests| { PostKeepsFlights(s, i); }
    case Answer(_, _, _) => AnswerKeepsFlights(s, e);
    case Refuse(_) => CloseKeepsFlights(s, e);
    case Settle(_) => CloseKeepsFlights(s, e);
    case _ =>
  }

  /** The one request an event changes, if any. */
  function Changed(e: Event): Option<nat> {
    match e
    case Send(i) => Some(i)
    case Respond(i) => Some(i)
    case Unauthorized(i) => Some(i)
    case Resume(i) => Some(i)
    case _ => None
  }

  lemma ChangedRequestOk(s: State, e: Event, i: nat)
    requires Inv(s) && Changed(e) == Some(i) && i < |s.requests|
    ensures |Step(s, e).requests| == |s.requests|
    ensures RequestOk(Step(s, e), Step(s, e).requests[i])
  {
    StepExtends(s, e);
    assert RequestOk(s, s.requests[i]);
    RequestStaysOk(s, Step(s, e), s.requests[i]);
    if e.Resume? && s.requests[i].phase.Waiting? {
      var f := s.requests[i].phase.flight;
      if s.flights[f].settled && s.flights[f].outcome.Answered? {
        var o := s.flights[f].outcome;
        var j := if s.store.access.Some? then |s.accessLog| - 1 else o.stamp;
        assert o.stamp <= j < |s.accessLog|;
        assert BearerOk(s, Some(s.accessLog[j]), f);
      }
    }
  }

  lemma StepKeepsInv(s: State, e: Event)
    requires Inv(s)
    ensures Inv(Step(s, e))
  {
    StepExtends(s, e);
    var s' := Step(s, e);
    assert |s'.requests| == |s.requests|;
    forall i | 0 <= i < |s.requests| ensures RequestOk(s', s'.requests[i]) {
      if Changed(e) == Some(i) {
        ChangedRequestOk(s, e, i);
      } else {
        assert RequestOk(s, s.requests[i]) && s'.requests[i] == s.requests[i];
        RequestStaysOk(s, s', s.requests[i]);
      }
    }
  }

  lemma {:induction false} RunKeepsInv(s: State, events: seq<Event>)
    requires Initial(s)
    ensures Inv(Run(s, events))
  {
    if events == [] {
    } else {
      RunKeepsInv(s, events[..|events| - 1]);
      StepKeepsInv(Run(s, events[..|events| - 1]), events[|events| - 1]);
    }
  }

  ghost predicate OneUnsettled(flights: seq<Flight>) {
    forall f, g :: 0 <= f < g < |flights| ==> flights[f].settled || flights[g].settled
  }

  /**
   In every run: at most one refresh is unsettled; every request is sent at most twice, and only a retry is
   sent a second time; a retry carries the token of the refresh it waited for or one stored later.
   */
  lemma EveryRunRefreshesOnce(s: State, events: seq<Event>)
    requires Initial(s)
    ensures var end := Run(s, events);
      OneUnsettled(end.flights)
      && (forall i :: 0 <= i < |end.requests| ==> end.requests[i].sends <= if end.requests[i].retry then 2 else 1)
      && (forall i :: 0 <= i < |end.requests| && end.requests[i].phase.Sent? && end.requests[i].retry ==>
            end.requests[i].phase.awaited.Some?
            && BearerOk(end, end.requests[i].phase.bearer, end.requests[i].phase.awaited.value))
  {
    RunKeepsInv(s, events);
    var end := Run(s, events);
    RunCountsSends(s, events);
    forall i | 0 <= i < |end.requests| ensures RequestOk(end, end.requests[i]) {}
  }

  lemma {:induction false} RunCountsSends(s: State, events: seq<Event>)
    requires Initial(s)
    ensures forall r :: r in Run(s, events).requests ==> r.sends <= if r.retry then 2 else 1
  {
    if events == [] {
    } else {
      var before, e := events[..|events| - 1], events[|events| - 1];
      RunCountsSends(s, before);
      RunKeepsInv(s, before);
      var mid := Run(s, before);
      if Changed(e).Some? && Changed(e).value < |mid.requests| {
        assert RequestOk(mid, mid.requests[Changed(e).value]);
      }
    }
  }

  // ---------- which tokens are sent ----------

  /** The request waits for a refresh that is settled: its continuation is queued. */
  predicate CanResume(s: State, r: Request) {
    r.phase.Waiting? && r.phase.flight < |s.flights| && s.flights[r.phase.flight].settled
  }

  /** The event brings the answer of a refresh. */
  predicate BringsTokens(s: State, e: Event) {
    e.Answer? && e.f < |s.flights| && s.flights[e.f].outcome == Unanswered
  }

  /** A logout, a refused refresh that a request has waited for, or a 401 with no refresh token to post. */
  predicate EndsSession(s: State, e: Event) {
    || e.Logout?
    || (e.Resume? && e.i < |s.requests| && CanResume(s, s.requests[e.i])
        && s.flights[s.requests[e.i].phase.flight].outcome == Refused)
    || (e.Unauthorized? && e.i < |s.requests| && s.requests[e.i].phase.Sent? && !s.requests[e.i].retry
        && s.store.refresh.None?)
  }

  /** A login or an answered refresh, or the page as it was loaded, gave tokens, and the session has not ended since. */
  predicate LoggedIn(page: State, events: seq<Event>) {
    if events == [] then page.store.access.Some?
    else
      var before, e := events[..|events| - 1], events[|events| - 1];
      e.Login? || BringsTokens(Run(page, before), e)
      || (!EndsSession(Run(page, before), e) && LoggedIn(page, before))
  }

  /** The last refresh token of the session, if it has one; an answer may bring none. */
  function LastRefresh(page: State, events: seq<Event>): Option<Token> {
    if events == [] then page.store.refresh
    else
      var before, e := events[..|events| - 1], events[|events| - 1];
      if e.Login? then Some(e.newRefresh)
      else if BringsTokens(Run(page, before), e) && e.refresh.Some? then e.refresh
      else if EndsSession(Run(page, before), e) then None
      else LastRefresh(page, before)
  }

  function LastAccess(s: State): Option<Token> {
    if s.accessLog == [] then None else Some(s.accessLog[|s.accessLog| - 1])
  }

  lemma SessionStep(s: State, e: Event)
    requires FlightsOk(s)
    ensures var s' := Step(s, e);
      && (e.Login? || BringsTokens(s, e) ==>
            s'.store.access == LastAccess(s') && s'.store.access.Some?
            && s'.store.refresh == if e.Login? then Some(e.newRefresh)
                                   else if e.refresh.Some? then e.refresh else s.store.refresh)
      && (EndsSession(s, e) ==> s'.store == LOGGED_OUT)
      && (!e.Login? && !BringsTokens(s, e) ==> s'.accessLog == s.accessLog)
      && (!e.Login? && !BringsTokens(s, e) && !EndsSession(s, e) ==> s'.store == s.store)
  {
  }

  lemma {:induction false} StoreIsSession(page: State, events: seq<Event>)
    requires Initial(page)
    ensures var s := Run(page, events);
      && s.store.access == (if LoggedIn(page, events) then LastAccess(s) else None)
      && (LoggedIn(page, events) ==> LastAccess(s).Some?)
      && s.store.refresh == LastRefresh(page, events)
  {
    if events == [] {
    } else {
      var before := events[..|events| - 1];
      StoreIsSession(page, before);
      RunKeepsInv(page, before);
      SessionStep(Run(page, before), events[|events| - 1]);
    }
  }

  lemma RunOneMore(page: State, events: seq<Event>, e: Event)
    ensures Run(page, events + [e]) == Step(Run(page, events), e)
  {
    assert (events + [e])[..|events + [e]| - 1] == events;
  }

  /**
   In every run a request is first sent with the access token stored last, from a login, an answer or the page as it
   was loaded, until the session ends, and without one from then until the next login or answer.
   */
  lemma FirstSendCarries(page: State, events: seq<Event>, i: nat)
    requires Initial(page) && i < |Run(page, events).requests| && Run(page, events).requests[i].phase == Idle
    ensures var s, s' := Run(page, events), Run(page, events + [Send(i)]);
      && i < |s'.requests|
      && s'.requests[i].phase == Sent(if LoggedIn(page, events) then LastAccess(s) else None, None)
      && (LoggedIn(page, events) ==> LastAccess(s).Some?)
  {
    StoreIsSession(page, events);
    RunOneMore(page, events, Send(i));
  }

  lemma ResumeSends(s: State, i: nat)
    requires i < |s.requests| && CanResume(s, s.requests[i])
    requires s.flights[s.requests[i].phase.flight].outcome.Answered?
    ensures var f, s' := s.requests[i].phase.flight, Step(s, Resume(i));
      && i < |s'.requests|
      && s'.requests[i].phase
         == Sent(if s.store.access.Some? then s.store.access else Some(s.flights[f].outcome.access), Some(f))
  {
  }

  /** And after an answered refresh it is sent again with that, or, if the session has ended, with the answer's. */
  lemma RetryCarries(page: State, events: seq<Event>, i: nat)
    requires Initial(page) && i < |Run(page, events).requests|
    requires var s := Run(page, events);
      CanResume(s, s.requests[i]) && s.flights[s.requests[i].phase.flight].outcome.Answered?
    ensures var s, s' := Run(page, events), Run(page, events + [Resume(i)]);
      var f := s.requests[i].phase.flight;
      && i < |s'.requests|
      && s'.requests[i].phase
         == Sent(if LoggedIn(page, events) then LastAccess(s) else Some(s.flights[f].outcome.access), Some(f))
      && (LoggedIn(page, events) ==> LastAccess(s).Some?)
  {
    StoreIsSession(page, events);
    RunOneMore(page, events, Resume(i));
    ResumeSends(Run(page, events), i);
  }

  /**
   In every run a 401 ends a request that was sent again; ends the session if it has no refresh token; and otherwise
   makes the request wait for the refresh under way, or for a new one, which posts the last refresh token.
   */
  lemma UnauthorizedRefreshes(page: State, events: seq<Event>, i: nat)
    requires Initial(page) && i < |Run(page, events).requests| && Run(page, events).requests[i].phase.Sent?
    ensures var s, s' := Run(page, events), Run(page, events + [Unauthorized(i)]);
      var held := LastRefresh(page, events);
      && i < |s'.requests| && s'.requests[i].retry
      && if s.requests[i].retry then s'.requests[i].phase == Done && s'.store == s.store && s'.flights == s.flights
         else if held.None? then s'.requests[i].phase == Done && s'.store == LOGGED_OUT && s'.flights == s.flights
         else
           && s'.store == s.store
           && (forall f :: 0 <= f < |s.flights| && !s.flights[f].settled ==>
                 s'.flights == s.flights && s'.requests[i].phase == Waiting(f))
           && ((forall f :: 0 <= f < |s.flights| ==> s.flights[f].settled) ==>
                 && s'.flights == s.flights + [Flight(held.value, Unanswered, false)]
                 && s'.requests[i].phase == Waiting(|s.flights|))
  {
    StoreIsSession(page, events);
    RunKeepsInv(page, events);
    RunOneMore(page, events, Unauthorized(i));
  }

  lemma RunOfThree(s: State, a: Event, b: Event, c: Event)
    ensures Run(s, [a, b, c]) == Step(Step(Step(s, a), b), c)
  {
    assert [] + [a] == [a] && [a] + [b] == [a, b] && [a, b] + [c] == [a, b, c];
    RunOneMore(s, [], a);
    RunOneMore(s, [a], b);
    RunOneMore(s, [a, b], c);
  }

  lemma RunOfFour(s: State, a: Event, b: Event, c: Event, d: Event)
    ensures Run(s, [a, b, c, d]) == Step(Step(Step(Step(s, a), b), c), d)
  {
    RunOfThree(s, a, b, c);
    assert [a, b, c] + [d] == [a, b, c, d];
    RunOneMore(s, [a, b, c], d);
  }

  lemma AnsweredWaitEnds(s: State, i: nat, f: nat, access: Token, refresh: Option<Token>)
    requires FlightsOk(s) && f < |s.flights| && s.flights[f].outcome == Unanswered
    requires i < |s.requests| && s.requests[i] == Request(Waiting(f), true, 1)
    ensures var s1 := Step(Step(s, Answer(f, access, refresh)), Settle(f));
      var s2 := Step(Step(s1, Resume(i)), Respond(i));
      && s2.requests == s.requests[i := Request(Done, true, 2)] && s2.promise == None
      && s2.store == Store(Some(access), if refresh.Some? then refresh else s.store.refresh)
  {
  }

  lemma RefusedWaitEnds(s: State, i: nat, f: nat)
    requires FlightsOk(s) && f < |s.flights| && s.flights[f].outcome == Unanswered
    requires i < |s.requests| && s.requests[i] == Request(Waiting(f), true, 1)
    ensures var s2 := Step(Step(Step(s, Refuse(f)), Settle(f)), Resume(i));
      s2.requests == s.requests[i := Request(Done, true, 1)] && s2.promise == None && s2.store == LOGGED_OUT
  {
  }

  /** How a wait ends: with the new tokens and a second response, or with the session. */
  lemma WaitEnds(s: State, i: nat, access: Token, refresh: Option<Token>)
    requires Inv(s) && i < |s.requests| && s.requests[i].phase.Waiting?
    requires var f := s.requests[i].phase.flight; f < |s.flights| && s.flights[f].outcome == Unanswered
    ensures var f := s.requests[i].phase.flight;
      var answered := Run(s, [Answer(f, access, refresh), Settle(f), Resume(i), Respond(i)]);
      var refused := Run(s, [Refuse(f), Settle(f), Resume(i)]);
      && answered.requests == s.requests[i := Request(Done, true, 2)] && answered.promise == None
      && answered.store == Store(Some(access), if refresh.Some? then refresh else s.store.refresh)
      && refused.requests == s.requests[i := Request(Done, true, 1)] && refused.promise == None
      && refused.store == LOGGED_OUT
  {
    var f := s.requests[i].phase.flight;
    assert RequestOk(s, s.requests[i]);
    AnsweredWaitEnds(s, i, f, access, refresh);
    RefusedWaitEnds(s, i, f);
    RunOfFour(s, Answer(f, access, refresh), Settle(f), Resume(i), Respond(i));
    RunOfThree(s, Refuse(f), Settle(f), Resume(i));
  }

  // ---------- every request comes to an end ----------

  function Rank(r: Request): nat {
    match r.phase
    case Idle => 0
    case Sent(_, awaited) => if awaited.None? then 1 else 3
    case Waiting(_) => 2
    case Done => 4
  }

  /** A request only moves forward: sent, waiting, sent again, done. There is no loop of retries. */
  lemma StepsOnlyForward(s: State, e: Event, i: nat)
    requires Inv(s) && i < |s.requests|
    ensures i < |Step(s, e).requests|
    ensures Step(s, e).requests[i] == s.requests[i] || Rank(Step(s, e).requests[i]) > Rank(s.requests[i])
  {
    assert RequestOk(s, s.requests[i]);
  }

  /**
   No request waits for nothing: either the server has not answered yet, or the refresh can be settled, or
   the request can go on, to be sent again after an answer and to end, logged out, after a refusal.
   */
  lemma NoWaiterStuck(s: State, i: nat)
    requires Inv(s) && i < |s.requests| && s.requests[i].phase.Waiting?
    ensures var f := s.requests[i].phase.flight;
      && f < |s.flights|
      && (s.flights[f].outcome == Unanswered ==> s.promise == Some(f))
      && (s.flights[f].outcome != Unanswered && !s.flights[f].settled ==>
            Step(s, Settle(f)).flights[f].settled && Step(s, Settle(f)).promise == None)
      && (s.flights[f].settled ==>
            var s' := Step(s, Resume(i));
            if s.flights[f].outcome.Answered? then s'.requests[i].phase.Sent? && s'.store == s.store
            else s'.requests[i].phase == Done && s'.store == LOGGED_OUT)
  {
    assert RequestOk(s, s.requests[i]);
  }

  // ---------- no refresh token is posted twice ----------

  /** The server never issues a refresh token again. */
  predicate FreshAt(s: State, e: Event) {
    match e
    case Answer(_, _, refresh) => refresh.Some? ==> refresh.value !in s.issued
    case Login(_, refresh) => refresh !in s.issued
    case _ => true
  }

  ghost predicate AlwaysFresh(s: State, events: seq<Event>) {
    forall k :: 0 <= k < |events| ==> FreshAt(Run(s, events[..k]), events[k])
  }

  /**
   The `finally` of a refresh and all that waits for it, down to the logout of a refused one, are microtasks of
   one checkpoint. A 401 is a task of its own, which begins when none is left.
   */
  predicate InItsTask(s: State, e: Event) {
    e.Unauthorized? ==> forall i :: 0 <= i < |s.requests| ==> !CanResume(s, s.requests[i])
  }

  ghost predicate AlwaysInItsTask(s: State, events: seq<Event>) {
    forall k :: 0 <= k < |events| ==> InItsTask(Run(s, events[..k]), events[k])
  }

  ghost predicate HasWaiter(s: State, f: nat) {
    exists i :: 0 <= i < |s.requests| && s.requests[i].phase == Waiting(f)
  }

  ghost predicate AllAwaited(s: State) {
    forall f :: 0 <= f < |s.flights| && !s.flights[f].settled ==> HasWaiter(s, f)
  }

  predicate Unrotated(f: Flight) { f.outcome.Answered? && !f.outcome.rotated }

  /** A stored token that was posted: the answer left it, or there is no answer and the waiters are still to come. */
  ghost predicate StoredOk(s: State, f: nat)
    requires f < |s.flights|
  {
    Unrotated(s.flights[f]) || (!s.flights[f].outcome.Answered? && HasWaiter(s, f))
  }

  ghost predicate TokensOk(s: State) {
    && (forall f :: 0 <= f < |s.flights| ==> s.flights[f].posted in s.issued)
    && (s.store.refresh.Some? ==> s.store.refresh.value in s.issued)
    && AllAwaited(s)
    && (forall f :: 0 <= f < |s.flights| && s.store.refresh == Some(s.flights[f].posted) ==> StoredOk(s, f))
  }

  ghost predicate PostedOk(flights: seq<Flight>) {
    forall f, g :: 0 <= f < g < |flights| && flights[f].posted == flights[g].posted ==> Unrotated(flights[f])
  }

  /** Only going on after the refresh takes a waiter away. */
  lemma WaiterStays(s: State, e: Event, f: nat)
    requires HasWaiter(s, f)
    ensures HasWaiter(Step(s, e), f) || (e.Resume? && e.i < |s.requests| && s.requests[e.i].phase == Waiting(f))
  {
    var i :| 0 <= i < |s.requests| && s.requests[i].phase == Waiting(f);
    if !(e.Resume? && e.i == i) {
      assert Step(s, e).requests[i] == s.requests[i];
    }
  }

  lemma PostKeepsTokensOk(s: State, i: nat)
    requires FlightsOk(s) && TokensOk(s) && i < |s.requests| && s.requests[i].phase.Sent?
    ensures TokensOk(OnUnauthorized(s, i))
  {
    var s' := OnUnauthorized(s, i);
    assert s' == Step(s, Unauthorized(i));
    if |s'.flights| > |s.flights| {
      assert s'.requests[i].phase == Waiting(|s.flights|);
    }
    forall f | 0 <= f < |s.flights| && HasWaiter(s, f) ensures HasWaiter(s', f) {
      WaiterStays(s, Unauthorized(i), f);
    }
    assert forall f :: 0 <= f < |s.flights| ==> s'.flights[f] == s.flights[f];
    forall f | 0 <= f < |s'.flights| && s'.store.refresh == Some(s'.flights[f].posted) ensures StoredOk(s', f) {
      if f < |s.flights| {
        assert StoredOk(s, f);
      }
    }
  }

  /** A token is posted again only if the answer left it. */
  lemma PostKeepsPostedOk(s: State, i: nat)
    requires FlightsOk(s) && TokensOk(s) && PostedOk(s.flights) && i < |s.requests| && InItsTask(s, Unauthorized(i))
    ensures PostedOk(OnUnauthorized(s, i).flights)
  {
    var flights := OnUnauthorized(s, i).flights;
    if |flights| > |s.flights| {
      forall f | 0 <= f < |s.flights| && s.flights[f].posted == s.store.refresh.value
        ensures Unrotated(s.flights[f])
      {
        assert s.flights[f].settled;
        assert StoredOk(s, f);
        assert !HasWaiter(s, f) by {
          assert forall k :: 0 <= k < |s.requests| ==> !CanResume(s, s.requests[k]);
        }
      }
      assert flights[..|s.flights|] == s.flights;
    }
  }

  lemma AnswerKeepsTokensOk(s: State, e: Event)
    requires TokensOk(s) && FreshAt(s, e) && (e.Answer? || e.Refuse? || e.Settle?)
    ensures TokensOk(Step(s, e))
  {
    var s' := Step(s, e);
    forall f | 0 <= f < |s.flights| && HasWaiter(s, f) ensures HasWaiter(s', f) {
      WaiterStays(s, e, f);
    }
    forall f | 0 <= f < |s'.flights| && s'.store.refresh == Some(s'.flights[f].posted) ensures StoredOk(s', f) {
      assert s'.flights[f].posted == s.flights[f].posted;
      assert StoredOk(s, f);
    }
  }

  lemma ResumeKeepsTokensOk(s: State, i: nat)
    requires FlightsOk(s) && TokensOk(s)
    ensures TokensOk(Step(s, Resume(i)))
  {
    var s' := Step(s, Resume(i));
    assert s'.flights == s.flights;
    forall f | 0 <= f < |s.flights| && !s.flights[f].settled ensures HasWaiter(s', f) {
      WaiterStays(s, Resume(i), f);
    }
    forall f | 0 <= f < |s.flights| && s'.store.refresh == Some(s.flights[f].posted) ensures StoredOk(s', f) {
      assert StoredOk(s, f);
      if HasWaiter(s, f) { WaiterStays(s, Resume(i), f); }
    }
  }

  lemma OtherKeepsTokensOk(s: State, e: Event)
    requires TokensOk(s) && FreshAt(s, e) && (e.Send? || e.Respond? || e.Login? || e.Logout?)
    ensures TokensOk(Step(s, e))
  {
    var s' := Step(s, e);
    assert s'.flights == s.flights;
    forall f | 0 <= f < |s.flights| && HasWaiter(s, f) ensures HasWaiter(s', f) {
      WaiterStays(s, e, f);
    }
    forall f | 0 <= f < |s.flights| && s'.store.refresh == Some(s.flights[f].posted) ensures StoredOk(s', f) {
      assert StoredOk(s, f);
    }
  }

  lemma StepKeepsTokensOk(s: State, e: Event)
    requires FlightsOk(s) && TokensOk(s) && FreshAt(s, e)
    ensures TokensOk(Step(s, e))
  {
    match e
    case Unauthorized(i) => if i < |s.requests| && s.requests[i].phase.Sent? { PostKeepsTokensOk(s, i); }
    case Answer(_, _, _) => AnswerKeepsTokensOk(s, e);
    case Refuse(_) => AnswerKeepsTokensOk(s, e);
    case Settle(_) => AnswerKeepsTokensOk(s, e);
    case Resume(i) => ResumeKeepsTokensOk(s, i);
    case _ => OtherKeepsTokensOk(s, e);
  }

  lemma StepKeepsPostedOk(s: State, e: Event)
    requires FlightsOk(s) && TokensOk(s) && PostedOk(s.flights) && InItsTask(s, e)
    ensures PostedOk(Step(s, e).flights)
  {
    if e.Unauthorized? {
      if e.i < |s.requests| && s.requests[e.i].phase.Sent? { PostKeepsPostedOk(s, e.i); }
    } else {
      var flights := Step(s, e).flights;
      assert |flights| == |s.flights|;
      assert forall f :: 0 <= f < |flights| ==>
        flights[f].posted == s.flights[f].posted && (Unrotated(s.flights[f]) ==> Unrotated(flights[f]));
    }
  }

  /**
   A refresh token is posted a second time only if the server answered its first post without a new one: never
   while refreshes succeed with rotated tokens, and never after a refusal.
   */
  lemma {:induction false} NoTokenPostedTwice(s: State, events: seq<Event>)
    requires Initial(s) && AlwaysFresh(s, events) && AlwaysInItsTask(s, events)
    ensures TokensOk(Run(s, events)) && PostedOk(Run(s, events).flights)
  {
    if events == [] {
    } else {
      var before := events[..|events| - 1];
      assert forall k :: 0 <= k < |before| ==> events[..k] == before[..k] && events[k] == before[k];
      assert AlwaysFresh(s, before) && AlwaysInItsTask(s, before);
      NoTokenPostedTwice(s, before);
      RunKeepsInv(s, before);
      assert FreshAt(Run(s, before), events[|events| - 1]) && InItsTask(Run(s, before), events[|events| - 1]);
      StepKeepsTokensOk(Run(s, before), events[|events| - 1]);
      StepKeepsPostedOk(Run(s, before), events[|events| - 1]);
    }
  }

  // ---------- logging out ----------

  ghost predicate NoLogin(events: seq<Event>) {
    forall k :: 0 <= k < |events| ==> !events[k].Login?
  }

  ghost predicate NoneUnanswered(s: State) {
    forall f :: 0 <= f < |s.flights| ==> s.flights[f].outcome != Unanswered
  }

  lemma {:induction false} QuietStaysLoggedOut(s: State, events: seq<Event>)
    requires s.store == LOGGED_OUT && NoneUnanswered(s) && NoLogin(events)
    ensures Run(s, events).store == LOGGED_OUT && NoneUnanswered(Run(s, events))
  {
    if events == [] {
    } else {
      QuietStaysLoggedOut(s, events[..|events| - 1]);
    }
  }

  /**
   A logout is final (until the next login) exactly when no refresh is unanswered at that moment: the answer
   of one that is puts its tokens back into the store.
   */
  lemma LogoutIsFinal(s: State)
    ensures (forall events :: NoLogin(events) ==> Run(Step(s, Logout), events).store == LOGGED_OUT)
            <==> NoneUnanswered(s)
  {
    var out := Step(s, Logout);
    if NoneUnanswered(s) {
      forall events | NoLogin(events) ensures Run(out, events).store == LOGGED_OUT {
        QuietStaysLoggedOut(out, events);
      }
    } else {
      var f :| 0 <= f < |s.flights| && s.flights[f].outcome == Unanswered;
      var events := [Answer(f, 0, Some(0))];
      assert events[..0] == [] && Run(out, events) == Step(out, events[0]);
      assert NoLogin(events) && Run(out, events).store != LOGGED_OUT;
    }
  }

  // ---------- logging in ----------

  /** Neither a session of its own, nor an answer to a refresh posted after the first n. */
  ghost predicate OnlyOlder(events: seq<Event>, n: nat) {
    forall k :: 0 <= k < |events| ==> OlderThan(events[k], n)
  }

  predicate OlderThan(e: Event, n: nat) {
    !e.Login? && !e.Logout? && (e.Answer? ==> e.f < n) && (e.Refuse? ==> e.f < n)
  }

  ghost predicate NoneAwaitsRefusal(s: State) {
    forall i :: 0 <= i < |s.requests| ==> !AwaitsRefusal(s, s.requests[i])
  }

  predicate AwaitsRefusal(s: State, r: Request) {
    r.phase.Waiting? && r.phase.flight < |s.flights| && s.flights[r.phase.flight].outcome == Refused
  }

  lemma StepKeepsAwaited(s: State, e: Event)
    requires FlightsOk(s) && AllAwaited(s)
    ensures AllAwaited(Step(s, e))
  {
    var s' := Step(s, e);
    if |s'.flights| > |s.flights| {
      assert e.Unauthorized? && s'.requests[e.i].phase == Waiting(|s.flights|);
    }
    forall f | 0 <= f < |s.flights| && !s'.flights[f].settled ensures HasWaiter(s', f) {
      WaiterStays(s, e, f);
    }
  }

  lemma {:induction false} RunKeepsAwaited(s: State, events: seq<Event>)
    requires Initial(s)
    ensures AllAwaited(Run(s, events))
  {
    if events == [] {
    } else {
      RunKeepsInv(s, events[..|events| - 1]);
      RunKeepsAwaited(s, events[..|events| - 1]);
      StepKeepsAwaited(Run(s, events[..|events| - 1]), events[|events| - 1]);
    }
  }

  /** An answered flight of the first n, or one posted since and not answered. */
  predicate Harmless(s: State, f: nat, n: nat) {
    f < |s.flights|
    && if f < n then s.flights[f].outcome.Answered? else s.flights[f].outcome == Unanswered && !s.flights[f].settled
  }

  ghost predicate Undisturbed(s: State, n: nat) {
    && n <= |s.flights| && s.store.refresh.Some?
    && (forall f :: 0 <= f < n ==> s.flights[f].outcome != Unanswered)
    && (forall f :: n <= f < |s.flights| ==> Harmless(s, f, n))
    && (forall i :: 0 <= i < |s.requests| && s.requests[i].phase.Waiting? ==>
          Harmless(s, s.requests[i].phase.flight, n))
    && (s.promise.Some? ==> Harmless(s, s.promise.value, n))
  }

  lemma PostKeepsUndisturbed(s: State, i: nat, n: nat)
    requires Undisturbed(s, n) && i < |s.requests|
    ensures Undisturbed(OnUnauthorized(s, i), n) && OnUnauthorized(s, i).store == s.store
  {
    var s' := OnUnauthorized(s, i);
    forall f | n <= f < |s'.flights| ensures Harmless(s', f, n) {
      assert f < |s.flights| ==> Harmless(s, f, n);
    }
  }

  lemma StepKeepsUndisturbed(s: State, e: Event, n: nat)
    requires Undisturbed(s, n) && OlderThan(e, n)
    ensures Undisturbed(Step(s, e), n) && Step(s, e).store == s.store
  {
    if e.Unauthorized? {
      if e.i < |s.requests| { PostKeepsUndisturbed(s, e.i, n); }
    } else {
      var s' := Step(s, e);
      forall f | n <= f < |s'.flights| ensures Harmless(s', f, n) {
        assert Harmless(s, f, n);
      }
    }
  }

  lemma {:induction false} RunKeepsUndisturbed(s: State, events: seq<Event>, n: nat)
    requires Undisturbed(s, n) && OnlyOlder(events, n)
    ensures Undisturbed(Run(s, events), n) && Run(s, events).store == s.store
  {
    if events == [] {
    } else {
      var before, e := events[..|events| - 1], events[|events| - 1];
      RunKeepsUndisturbed(s, before, n);
      StepKeepsUndisturbed(Run(s, before), e, n);
    }
  }

  /** The tokens stored at a login stay until the session itself refreshes them, logs out or logs in. */
  ghost predicate StaysLoggedIn(s: State, access: Token, refresh: Token) {
    forall later :: OnlyOlder(later, |s.flights|) ==>
      Run(Step(s, Login(access, refresh)), later).store == Store(Some(access), Some(refresh))
  }

  /** The answer of an unanswered flight replaces the tokens. */
  lemma AnswerDisturbs(s: State, f: nat, access: Token, refresh: Token)
    requires f < |s.flights| && s.flights[f].outcome == Unanswered
    ensures !StaysLoggedIn(s, access, refresh)
  {
    var session := Step(s, Login(access, refresh));
    var later := [Answer(f, access + 1, None)];
    assert later[..0] == [] && Run(session, later) == Step(session, later[0]);
    assert OnlyOlder(later, |s.flights|);
  }

  /** A request that awaits a refused flight logs the session out. */
  lemma RefusalDisturbs(s: State, i: nat, access: Token, refresh: Token)
    requires i < |s.requests| && AwaitsRefusal(s, s.requests[i])
    ensures !StaysLoggedIn(s, access, refresh)
  {
    var session := Step(s, Login(access, refresh));
    var later := [Settle(s.requests[i].phase.flight), Resume(i)];
    assert later[..1] == [later[0]] && later[..1][..0] == [];
    assert Run(session, later[..1]) == Step(session, later[0]);
    assert Run(session, later) == Step(Step(session, later[0]), later[1]);
    assert OnlyOlder(later, |s.flights|);
  }

  /**
   In every run, a login keeps its tokens, whatever becomes of the refreshes posted before it, exactly when at
   that moment none of those is unanswered and no request waits for one that was refused.
   */
  lemma LoginIsFinal(page: State, before: seq<Event>, access: Token, refresh: Token)
    requires Initial(page)
    ensures var s := Run(page, before);
      StaysLoggedIn(s, access, refresh) <==> NoneUnanswered(s) && NoneAwaitsRefusal(s)
  {
    var s := Run(page, before);
    RunKeepsInv(page, before);
    RunKeepsAwaited(page, before);
    if NoneUnanswered(s) && NoneAwaitsRefusal(s) {
      var session := Step(s, Login(access, refresh));
      LoginUndisturbed(s, access, refresh);
      forall later | OnlyOlder(later, |s.flights|)
        ensures Run(session, later).store == Store(Some(access), Some(refresh))
      {
        RunKeepsUndisturbed(session, later, |s.flights|);
      }
    } else if !NoneUnanswered(s) {
      var f :| 0 <= f < |s.flights| && s.flights[f].outcome == Unanswered;
      AnswerDisturbs(s, f, access, refresh);
    } else {
      var i :| 0 <= i < |s.requests| && AwaitsRefusal(s, s.requests[i]);
      RefusalDisturbs(s, i, access, refresh);
    }
  }

  lemma LoginUndisturbed(s: State, access: Token, refresh: Token)
    requires Inv(s) && AllAwaited(s) && NoneUnanswered(s) && NoneAwaitsRefusal(s)
    ensures Undisturbed(Step(s, Login(access, refresh)), |s.flights|)
  {
    forall i | 0 <= i < |s.requests| && s.requests[i].phase.Waiting?
      ensures Harmless(s, s.requests[i].phase.flight, |s.flights|)
    {
      assert RequestOk(s, s.requests[i]) && !AwaitsRefusal(s, s.requests[i]);
    }
    if s.promise.Some? {
      assert HasWaiter(s, s.promise.value);
    }
  }
}
