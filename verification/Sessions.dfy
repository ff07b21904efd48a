/**
  * Refresh-token rotation and one-time codes over the shared rows, one database statement per step,
  * from any number of requests at once. Tokens and codes stand for their hashes. Refresh tokens are
  * random, hence new; access tokens are signed claims and may repeat, but the column is unique.
  */
module Sessions {
  import opened JsValues

  datatype Status = Active | RevokedByNewLogin | LoggedOut

  datatype Purpose = Login | Reveal

  datatype Session = Session(userId: nat, access: nat, refresh: nat, status: Status, expiresAt: int)

  datatype Otp = Otp(userId: nat, code: nat, purpose: Purpose, expiresAt: int, used: bool)

  /** Where a request stands between two of its statements. */
  datatype LoginPhase = Consumed(userId: nat) | Revoked(userId: nat)

  datatype Found = Found(sessionId: nat, token: nat)

  datatype Event =
    | CodeIssued(userId: nat, purpose: Purpose)
    | CodeAccepted(userId: nat, purpose: Purpose)
    | LoggedIn(userId: nat, sessionId: nat, access: nat, refresh: nat)
    | Exchanged(sessionId: nat, access: nat, refresh: nat, spent: nat)

  /** The rows, the next unused ids and random token, the requests under way, and all successes so far. */
  datatype State = State(now: int, sessions: map<nat, Session>, otps: map<nat, Otp>, nextSession: nat, nextOtp: nat,
                         minted: nat, logins: map<nat, LoginPhase>, refreshes: map<nat, Found>, log: seq<Event>)

  datatype Step =
    | Wait(until: int)
    | InvalidateCodes(userId: nat)
    | IssueCode(userId: nat, code: nat, purpose: Purpose, expiresAt: int)
    | LoginConsume(request: nat, userId: nat, code: nat)
    | LoginRevoke(request: nat)
    | LoginCreate(request: nat, access: nat, expiresAt: int)
    | Reauth(userId: nat, code: nat)
    | RefreshFind(request: nat, token: nat, sessionId: nat)
    | RefreshRotate(request: nat, access: nat)
    | Logout(userId: nat)
    | DeleteCodes(ids: set<nat>)
    | DeleteSessions(ids: set<nat>)

  // ---------- statements ----------

  predicate Usable(otp: Otp, userId: nat, code: nat, purpose: Purpose, now: int) {
    otp.userId == userId && otp.code == code && otp.purpose == purpose && !otp.used && otp.expiresAt > now
  }

  /** updateMany ... set used, on the rows that are usable. */
  function Consume(s: State, userId: nat, code: nat, purpose: Purpose): map<nat, Otp> {
    map id | id in s.otps :: if Usable(s.otps[id], userId, code, purpose, s.now) then s.otps[id].(used := true)
      else s.otps[id]
  }

  /** Accepting a code is having flipped at least one row. */
  predicate Accepts(s: State, userId: nat, code: nat, purpose: Purpose) {
    exists id | id in s.otps :: Usable(s.otps[id], userId, code, purpose, s.now)
  }

  function End(sessions: map<nat, Session>, userId: nat, status: Status): map<nat, Session> {
    map id | id in sessions ::
      if sessions[id].userId == userId && sessions[id].status == Active then sessions[id].(status := status)
      else sessions[id]
  }

  predicate Refreshable(session: Session, token: nat, now: int) {
    session.refresh == token && session.status == Active && session.expiresAt > now
  }

  /** Another row holds this access token: the unique index makes the statement fail. */
  predicate Taken(sessions: map<nat, Session>, access: nat, except: nat) {
    exists id | id in sessions :: id != except && sessions[id].access == access
  }

  predicate Rotates(s: State, found: Found, access: nat) {
    && found.sessionId in s.sessions
    && s.sessions[found.sessionId].refresh == found.token
    && s.sessions[found.sessionId].status == Active
    && !Taken(s.sessions, access, found.sessionId)
  }

  ghost predicate Enabled(s: State, step: Step) {
    match step
    case Wait(until) => s.now <= until
    case LoginConsume(request, _, _) => request !in s.logins
    case LoginRevoke(request) => request in s.logins && s.logins[request].Consumed?
    case LoginCreate(request, _, _) => request in s.logins && s.logins[request].Revoked?
    case RefreshFind(request, token, id) =>
      request !in s.refreshes && id in s.sessions && Refreshable(s.sessions[id], token, s.now)
    case RefreshRotate(request, _) => request in s.refreshes
    case DeleteCodes(ids) => forall id | id in ids && id in s.otps :: s.otps[id].expiresAt < s.now || s.otps[id].used
    case DeleteSessions(ids) =>
      forall id | id in ids && id in s.sessions :: s.sessions[id].expiresAt < s.now || s.sessions[id].status != Active
    case _ => true
  }

  function Rotated(s: State, request: nat, access: nat): State
    requires request in s.refreshes
  {
    var found := s.refreshes[request];
    var done := s.(refreshes := s.refreshes - {request});
    if !Rotates(s, found, access) then done
    else
      var session := s.sessions[found.sessionId].(access := access, refresh := s.minted);
      done.(sessions := s.sessions[found.sessionId := session],
            minted := s.minted + 1,
            log := s.log + [Exchanged(found.sessionId, access, s.minted, found.token)])
  }

  function Created(s: State, request: nat, access: nat, expiresAt: int): State
    requires request in s.logins
  {
    var done := s.(logins := s.logins - {request});
    if Taken(s.sessions, access, s.nextSession) then done
    else
      var session := Session(s.logins[request].userId, access, s.minted, Active, expiresAt);
      done.(sessions := s.sessions[s.nextSession := session],
            nextSession := s.nextSession + 1, minted := s.minted + 1,
            log := s.log + [LoggedIn(s.logins[request].userId, s.nextSession, access, s.minted)])
  }

  function Accepted(s: State, userId: nat, code: nat, purpose: Purpose): State {
    if !Accepts(s, userId, code, purpose) then s
    else s.(otps := Consume(s, userId, code, purpose), log := s.log + [CodeAccepted(userId, purpose)])
  }

  function Apply(s: State, step: Step): State {
    match step
    case Wait(until) => s.(now := until)
    case InvalidateCodes(userId) =>
      s.(otps := map id | id in s.otps :: if s.otps[id].userId == userId then s.otps[id].(used := true) else s.otps[id])
    case IssueCode(userId, code, purpose, expiresAt) =>
      s.(otps := s.otps[s.nextOtp := Otp(userId, code, purpose, expiresAt, false)], nextOtp := s.nextOtp + 1,
         log := s.log + [CodeIssued(userId, purpose)])
    case LoginConsume(request, userId, code) =>
      if Accepts(s, userId, code, Login)
      then Accepted(s, userId, code, Login).(logins := s.logins[request := Consumed(userId)])
      else s
    case LoginRevoke(request) =>
      if request !in s.logins then s
      else
        var userId := s.logins[request].userId;
        s.(sessions := End(s.sessions, userId, RevokedByNewLogin), logins := s.logins[request := Revoked(userId)])
    case LoginCreate(request, access, expiresAt) =>
      if request !in s.logins then s else Created(s, request, access, expiresAt)
    case Reauth(userId, code) => Accepted(s, userId, code, Reveal)
    case RefreshFind(request, token, id) => s.(refreshes := s.refreshes[request := Found(id, token)])
    case RefreshRotate(request, access) => if request !in s.refreshes then s else Rotated(s, request, access)
    case Logout(userId) => s.(sessions := End(s.sessions, userId, LoggedOut))
    case DeleteCodes(ids) => s.(otps := s.otps - ids)
    case DeleteSessions(ids) => s.(sessions := s.sessions - ids)
  }

  ghost function After(s: State, steps: seq<Step>): State {
    if steps == [] then s else Apply(After(s, steps[..|steps| - 1]), steps[|steps| - 1])
  }

  ghost predicate Legal(s: State, steps: seq<Step>) {
    forall i | 0 <= i < |steps| :: Enabled(After(s, steps[..i]), steps[i])
  }

  function Empty(now: int): State { State(now, map[], map[], 0, 0, 0, map[], map[], []) }

  ghost predicate Run(now: int, steps: seq<Step>, s: State) {
    Legal(Empty(now), steps) && After(Empty(now), steps) == s
  }

  ghost predicate Reachable(s: State) { exists now, steps :: Run(now, steps, s) }

  // ---------- the rows against the log ----------

  /** The tokens a session was last given. */
  ghost function LatestGrant(log: seq<Event>, id: nat): Option<(nat, nat)> {
    if log == [] then None
    else
      var e := log[|log| - 1];
      if (e.LoggedIn? || e.Exchanged?) && e.sessionId == id then Some((e.access, e.refresh))
      else LatestGrant(log[..|log| - 1], id)
  }

  ghost predicate RowFits(s: State, id: nat) {
    && id in s.sessions && id < s.nextSession && s.sessions[id].refresh < s.minted
    && LatestGrant(s.log, id) == Some((s.sessions[id].access, s.sessions[id].refresh))
  }

  ghost predicate RowsDiffer(s: State) {
    forall a, b | a in s.sessions && b in s.sessions && a != b ::
      s.sessions[a].refresh != s.sessions[b].refresh && s.sessions[a].access != s.sessions[b].access
  }

  /** A spent token is held by no row, and was spent by one exchange. */
  ghost predicate SpentOnce(s: State) {
    && (forall i, id | 0 <= i < |s.log| && s.log[i].Exchanged? && id in s.sessions ::
          s.sessions[id].refresh != s.log[i].spent)
    && (forall i | 0 <= i < |s.log| && s.log[i].Exchanged? :: s.log[i].spent < s.minted)
    && (forall i, j | 0 <= i < j < |s.log| && s.log[i].Exchanged? && s.log[j].Exchanged? ::
        s.log[i].spent != s.log[j].spent)
  }

  ghost predicate Fits(s: State) { (forall id | id in s.sessions :: RowFits(s, id)) && RowsDiffer(s) && SpentOnce(s) }

  lemma {:induction false} LatestSnoc(log: seq<Event>, e: Event, id: nat)
    ensures LatestGrant(log + [e], id) ==
            if (e.LoggedIn? || e.Exchanged?) && e.sessionId == id then Some((e.access, e.refresh))
            else LatestGrant(log, id)
  {
    assert (log + [e])[..|log|] == log;
  }

  /** Steps that touch neither tokens nor the log's grants. */
  lemma {:induction false} SameTokensFit(s: State, t: State)
    requires Fits(s) && t.nextSession == s.nextSession && t.minted == s.minted
    requires forall id | id in t.sessions ::
               id in s.sessions && t.sessions[id].access == s.sessions[id].access
                 && t.sessions[id].refresh == s.sessions[id].refresh
    requires t.log == s.log || exists e: Event :: t.log == s.log + [e] && !e.LoggedIn? && !e.Exchanged?
    ensures Fits(t)
  {
    if t.log != s.log {
      var e: Event :| t.log == s.log + [e] && !e.LoggedIn? && !e.Exchanged?;
      forall id | id in t.sessions
        ensures RowFits(t, id)
      {
        assert RowFits(s, id);
        LatestSnoc(s.log, e, id);
      }
    } else {
      forall id | id in t.sessions
        ensures RowFits(t, id)
      {
        assert RowFits(s, id);
      }
    }
  }

  lemma {:induction false} RotatedFits(s: State, request: nat, access: nat)
    requires Fits(s) && request in s.refreshes
    ensures Fits(Rotated(s, request, access))
  {
    var t, found := Rotated(s, request, access), s.refreshes[request];
    if !Rotates(s, found, access) {
      SameTokensFit(s, t);
    } else {
      assert RowFits(s, found.sessionId);
      var e := Exchanged(found.sessionId, access, s.minted, found.token);
      forall id | id in t.sessions
        ensures RowFits(t, id)
      {
        assert RowFits(s, id);
        LatestSnoc(s.log, e, id);
      }
      GrantDiffers(s, t, found.sessionId);
      SpentNow(s, t, e);
    }
  }

  lemma {:induction false} GrantDiffers(s: State, t: State, id: nat)
    requires RowsDiffer(s) && (forall a | a in s.sessions :: RowFits(s, a))
    requires id in t.sessions && t.sessions[id].refresh == s.minted && !Taken(s.sessions, t.sessions[id].access, id)
    requires t.sessions == s.sessions[id := t.sessions[id]]
    ensures RowsDiffer(t)
  {
    hide LatestGrant;
  }

  lemma {:induction false} SpentNow(s: State, t: State, e: Event)
    requires SpentOnce(s) && RowsDiffer(s) && e.Exchanged? && e.sessionId in s.sessions
    requires s.sessions[e.sessionId].refresh == e.spent < s.minted
    requires t.log == s.log + [e] && t.minted == s.minted + 1
    requires e.sessionId in t.sessions && t.sessions[e.sessionId].refresh == s.minted
    requires t.sessions == s.sessions[e.sessionId := t.sessions[e.sessionId]]
    ensures SpentOnce(t)
  {
    forall i, j | 0 <= i < j < |t.log| && t.log[i].Exchanged? && t.log[j].Exchanged?
      ensures t.log[i].spent != t.log[j].spent
    {
      assert t.log[i] == s.log[i];
    }
  }

  lemma {:induction false} CreatedFits(s: State, request: nat, access: nat, expiresAt: int)
    requires Fits(s) && request in s.logins
    ensures Fits(Created(s, request, access, expiresAt))
  {
    var t := Created(s, request, access, expiresAt);
    if Taken(s.sessions, access, s.nextSession) {
      SameTokensFit(s, t);
    } else {
      var e := LoggedIn(s.logins[request].userId, s.nextSession, access, s.minted);
      forall id | id in t.sessions
        ensures RowFits(t, id)
      {
        assert id in s.sessions ==> RowFits(s, id);
        LatestSnoc(s.log, e, id);
      }
      GrantDiffers(s, t, s.nextSession);
    }
  }

  lemma {:induction false} StepFits(s: State, step: Step)
    requires Fits(s) && Enabled(s, step)
    ensures Fits(Apply(s, step))
  {
    hide Fits, LatestGrant, Taken, Usable;
    match step
    case LoginCreate(request, access, expiresAt) => CreatedFits(s, request, access, expiresAt);
    case RefreshRotate(request, access) => RotatedFits(s, request, access);
    case IssueCode(userId, _, purpose, _) =>
      assert Apply(s, step).log == s.log + [CodeIssued(userId, purpose)];
      SameTokensFit(s, Apply(s, step));
    case LoginConsume(_, userId, code) =>
      if Accepts(s, userId, code, Login) {
        assert Apply(s, step).log == s.log + [CodeAccepted(userId, Login)];
      }
      SameTokensFit(s, Apply(s, step));
    case Reauth(userId, code) =>
      if Accepts(s, userId, code, Reveal) {
        assert Apply(s, step).log == s.log + [CodeAccepted(userId, Reveal)];
      }
      SameTokensFit(s, Apply(s, step));
    case _ => SameTokensFit(s, Apply(s, step));
  }

  lemma {:induction false} PrefixLegal(s: State, steps: seq<Step>, n: nat)
    requires Legal(s, steps) && n <= |steps|
    ensures Legal(s, steps[..n])
  {
    hide Enabled, After;
    forall i | 0 <= i < n
      ensures Enabled(After(s, steps[..n][..i]), steps[..n][i])
    {
      assert steps[..n][..i] == steps[..i];
    }
  }

  lemma {:induction false} RunFits(s: State, steps: seq<Step>)
    requires Fits(s) && Legal(s, steps)
    ensures Fits(After(s, steps))
  {
    hide Fits, Enabled, Apply;
    if steps != [] {
      var n := |steps| - 1;
      PrefixLegal(s, steps, n);
      RunFits(s, steps[..n]);
      StepFits(After(s, steps[..n]), steps[n]);
    }
  }

  lemma {:induction false} ReachableFits(s: State)
    requires Reachable(s)
    ensures Fits(s)
  {
    hide Legal, After;
    var now, steps :| Run(now, steps, s);
    RunFits(Empty(now), steps);
  }

  // ---------- rotation ----------

  /** Whatever the interleaving, no refresh token is exchanged twice. */
  lemma {:induction false} ExchangedOnce(s: State, i: nat, j: nat)
    requires Reachable(s) && i < j < |s.log| && s.log[i].Exchanged? && s.log[j].Exchanged?
    ensures s.log[i].spent != s.log[j].spent
  {
    hide Reachable;
    ReachableFits(s);
  }

  /** An exchange spends the token its session was given last. */
  lemma {:induction false} OnlyTheLatestIsExchanged(s: State, request: nat, access: nat)
    requires Reachable(s) && request in s.refreshes && |Rotated(s, request, access).log| > |s.log|
    ensures var e := Rotated(s, request, access).log[|s.log|];
            && e.Exchanged?
            && LatestGrant(s.log, e.sessionId).Some? && LatestGrant(s.log, e.sessionId).value.1 == e.spent
            && LatestGrant(Rotated(s, request, access).log, e.sessionId) == Some((access, e.refresh))
            && (forall i | 0 <= i < |s.log| && s.log[i].Exchanged? ::
                s.log[i].spent != e.spent && s.log[i].spent != e.refresh)
  {
    hide Reachable, LatestGrant;
    ReachableFits(s);
    RotatedFits(s, request, access);
    var found := s.refreshes[request];
    assert RowFits(s, found.sessionId);
    assert RowFits(Rotated(s, request, access), found.sessionId);
  }

  ghost predicate IsActive(s: State, id: nat) { id in s.sessions && s.sessions[id].status == Active }

  /** A step neither revives a session nor refreshes one that is not active. */
  lemma {:induction false} StepKeepsEnded(s: State, step: Step, id: nat)
    requires Fits(s) && Enabled(s, step) && id < s.nextSession && !IsActive(s, id)
    ensures var t := Apply(s, step);
            && id < t.nextSession && !IsActive(t, id) && s.log <= t.log
            && forall i | |s.log| <= i < |t.log| :: !(t.log[i].Exchanged? && t.log[i].sessionId == id)
  {
    hide Fits, LatestGrant, Taken, Usable;
  }

  /** A session that left "active" is never refreshed again, over any further run. */
  lemma {:induction false} EndedStaysEnded(s: State, steps: seq<Step>, id: nat)
    requires Reachable(s) && Legal(s, steps) && id < s.nextSession && !IsActive(s, id)
    ensures var t := After(s, steps);
            && Fits(t) && id < t.nextSession && !IsActive(t, id) && s.log <= t.log
            && forall i | |s.log| <= i < |t.log| :: !(t.log[i].Exchanged? && t.log[i].sessionId == id)
  {
    hide Reachable, Fits, Enabled, Apply;
    if steps == [] {
      ReachableFits(s);
    } else {
      var n := |steps| - 1;
      PrefixLegal(s, steps, n);
      EndedStaysEnded(s, steps[..n], id);
      StepKeepsEnded(After(s, steps[..n]), steps[n], id);
      StepFits(After(s, steps[..n]), steps[n]);
    }
  }

  /**
    * A rotation goes through exactly when the session is still active, still holds the token found,
    * and the new access token is free.
    */
  lemma {:induction false} RotationSucceedsIff(s: State, request: nat, access: nat)
    requires Reachable(s) && request in s.refreshes
    ensures var found, t := s.refreshes[request], Rotated(s, request, access);
            (exists token: nat :: t.log == s.log + [Exchanged(found.sessionId, access, token, found.token)])
            <==> IsActive(s, found.sessionId) && LatestGrant(s.log, found.sessionId).Some? &&
                 LatestGrant(s.log, found.sessionId).value.1 == found.token
                 && (forall other | other in s.sessions && other != found.sessionId ::
                       s.sessions[other].access != access)
  {
    hide Reachable, LatestGrant;
    ReachableFits(s);
    var found, t := s.refreshes[request], Rotated(s, request, access);
    if found.sessionId in s.sessions {
      assert RowFits(s, found.sessionId);
    }
    if Rotates(s, found, access) {
      assert t.log == s.log + [Exchanged(found.sessionId, access, s.minted, found.token)];
    } else {
      assert |t.log| == |s.log|;
    }
  }

  /** Of two requests that both found the same token, at most one gets through. */
  lemma {:induction false} RaceHasOneWinner(s: State, first: nat, a: nat, second: nat, b: nat)
    requires Reachable(s) && first in s.refreshes && second in s.refreshes && first != second
    requires s.refreshes[first] == s.refreshes[second]
    ensures var middle := Rotated(s, first, a);
            && second in middle.refreshes
            && |Rotated(middle, second, b).log| <= |s.log| + 1
  {
    hide Reachable, LatestGrant, Taken;
    ReachableFits(s);
    var found := s.refreshes[first];
    if found.sessionId in s.sessions {
      assert RowFits(s, found.sessionId);
    }
  }

  /** Ending a user's sessions leaves none of them active and touches no other row. */
  lemma {:induction false} LogoutEndsAll(s: State, userId: nat)
    ensures var t := Apply(s, Logout(userId));
            && t.sessions.Keys == s.sessions.Keys
            && forall id | id in s.sessions ::
                 if s.sessions[id].userId == userId && IsActive(s, id)
                 then t.sessions[id].status == LoggedOut && t.sessions[id] == s.sessions[id].(status := LoggedOut)
                 else t.sessions[id] == s.sessions[id]
  {
  }

  /**
    * A login revokes all sessions its user had, and if its access token is free ends with one new
    * session the guard admits.
    */
  lemma {:induction false} LoginReplacesSessions(s: State, request: nat, access: nat, expiresAt: int)
    requires Reachable(s) && request in s.logins && expiresAt >= s.now
    requires forall other | other in s.sessions :: s.sessions[other].access != access
    ensures var userId, revoked := s.logins[request].userId, Apply(s, LoginRevoke(request));
            && (forall id | IsActive(revoked, id) :: IsActive(s, id) && revoked.sessions[id].userId != userId)
            && (forall id | IsActive(s, id) && s.sessions[id].userId != userId :: IsActive(revoked, id))
            && (forall id | IsActive(s, id) && s.sessions[id].userId == userId ::
                  id in revoked.sessions && revoked.sessions[id].status == RevokedByNewLogin)
    ensures var userId, created := s.logins[request].userId, Apply(s, LoginCreate(request, access, expiresAt));
            && s.nextSession !in s.sessions
            && Current(created, s.nextSession, access) && created.sessions[s.nextSession].userId == userId
            && (forall id | id in s.sessions :: id in created.sessions && created.sessions[id] == s.sessions[id])
  {
    hide Reachable, LatestGrant;
    ReachableFits(s);
    CreatedFits(s, request, access, expiresAt);
    forall id | id in s.sessions
      ensures id < s.nextSession
    {
      assert RowFits(s, id);
    }
    assert RowFits(Created(s, request, access, expiresAt), s.nextSession);
  }

  /** A login whose access token another session holds creates nothing and logs nothing. */
  lemma {:induction false} LoginNeedsAFreeToken(s: State, request: nat, access: nat, expiresAt: int)
    requires Reachable(s) && Enabled(s, LoginCreate(request, access, expiresAt))
    ensures var t := Apply(s, LoginCreate(request, access, expiresAt));
            if exists other :: other in s.sessions && s.sessions[other].access == access
            then t.sessions == s.sessions && t.log == s.log
            else t.log == s.log + [LoggedIn(s.logins[request].userId, s.nextSession, access, s.minted)]
  {
    hide Reachable, LatestGrant;
    ReachableFits(s);
    forall id | id in s.sessions
      ensures id < s.nextSession
    {
      assert RowFits(s, id);
    }
  }

  /** A step never changes when a session expires, and gives no old identifier a new session. */
  lemma {:induction false} StepKeepsExpiry(s: State, step: Step, id: nat)
    requires Fits(s) && Enabled(s, step) && id < s.nextSession
    ensures var t := Apply(s, step);
            && id < t.nextSession && s.now <= t.now
            && (id in t.sessions ==> id in s.sessions && t.sessions[id].expiresAt == s.sessions[id].expiresAt)
  {
    hide Fits, LatestGrant, Taken, Usable;
  }

  /**
    * Rotation does not prolong a session: once expired, it is neither found for a refresh nor admitted
    * again, over any further run.
    */
  lemma {:induction false} ExpiredStaysExpired(s: State, steps: seq<Step>, id: nat)
    requires Reachable(s) && Legal(s, steps) && id in s.sessions && s.sessions[id].expiresAt < s.now
    ensures var t := After(s, steps);
            && Fits(t) && id < t.nextSession && s.now <= t.now
            && (id in t.sessions ==> t.sessions[id].expiresAt == s.sessions[id].expiresAt)
            && (forall request, token :: !Enabled(t, RefreshFind(request, token, id)))
            && (forall access :: !Current(t, id, access))
  {
    hide Reachable, Fits, Apply, LatestGrant;
    if steps == [] {
      ReachableFits(s);
      IdsAreOld(s, id);
    } else {
      var n := |steps| - 1;
      PrefixLegal(s, steps, n);
      ExpiredStaysExpired(s, steps[..n], id);
      StepKeepsExpiry(After(s, steps[..n]), steps[n], id);
      StepFits(After(s, steps[..n]), steps[n]);
    }
  }

  lemma {:induction false} IdsAreOld(s: State, id: nat)
    requires Fits(s) && id in s.sessions
    ensures id < s.nextSession
  {
    assert RowFits(s, id);
  }

  // ---------- the guard ----------

  /** `canActivate` for a token whose signature and lifetime are in order. */
  predicate Admits(s: State, access: nat) {
    exists id | id in s.sessions ::
      s.sessions[id].access == access && s.sessions[id].status == Active && s.sessions[id].expiresAt >= s.now
  }

  ghost predicate Current(s: State, id: nat, access: nat) {
    && IsActive(s, id) && s.sessions[id].expiresAt >= s.now
    && LatestGrant(s.log, id).Some? && LatestGrant(s.log, id).value.0 == access
  }

  /**
    * Only the access token given last to an active, unexpired session passes the guard, and it speaks
    * for one session.
    */
  lemma {:induction false} GuardAdmitsTheLatest(s: State, access: nat)
    requires Reachable(s)
    ensures Admits(s, access) <==> exists id :: Current(s, id, access)
    ensures forall a, b | Current(s, a, access) && Current(s, b, access) :: a == b
  {
    hide Reachable, LatestGrant;
    ReachableFits(s);
    forall id | id in s.sessions
      ensures RowFits(s, id)
    {
    }
    if Admits(s, access) {
      var id :| id in s.sessions && s.sessions[id].access == access && s.sessions[id].status == Active
        && s.sessions[id].expiresAt >= s.now;
      assert Current(s, id, access);
    }
  }

  // ---------- how long a session lives ----------

  /** Logging the user out, or a login of that user that revokes. */
  ghost predicate EndsSessionsOf(s: State, step: Step, userId: nat) {
    || (step.Logout? && step.userId == userId)
    || (step.LoginRevoke? && step.request in s.logins && s.logins[step.request].userId == userId)
  }

  /** No step of a run ends the user's sessions. */
  ghost predicate Undisturbed(s: State, steps: seq<Step>, userId: nat) {
    forall i | 0 <= i < |steps| :: !EndsSessionsOf(After(s, steps[..i]), steps[i], userId)
  }

  lemma {:induction false} PrefixUndisturbed(s: State, steps: seq<Step>, n: nat, userId: nat)
    requires Undisturbed(s, steps, userId) && n <= |steps|
    ensures Undisturbed(s, steps[..n], userId)
  {
    hide After, EndsSessionsOf;
    forall i | 0 <= i < n
      ensures !EndsSessionsOf(After(s, steps[..n][..i]), steps[..n][i], userId)
    {
      assert steps[..n][..i] == steps[..i];
    }
  }

  /** The session is active and expires then, or it has expired and was deleted. */
  ghost predicate Lives(s: State, id: nat, userId: nat, expiresAt: int) {
    && id < s.nextSession
    && (if id in s.sessions
        then s.sessions[id].userId == userId && s.sessions[id].status == Active && s.sessions[id].expiresAt == expiresAt
        else expiresAt < s.now)
  }

  lemma {:induction false} StepKeepsAlive(s: State, step: Step, id: nat, userId: nat, expiresAt: int)
    requires Lives(s, id, userId, expiresAt) && Enabled(s, step) && !EndsSessionsOf(s, step, userId)
    ensures Lives(Apply(s, step), id, userId, expiresAt)
  {
    hide Taken, Usable;
  }

  lemma {:induction false} RunKeepsAlive(s: State, steps: seq<Step>, id: nat, userId: nat, expiresAt: int)
    requires Fits(s) && Lives(s, id, userId, expiresAt) && Legal(s, steps) && Undisturbed(s, steps, userId)
    ensures Fits(After(s, steps)) && Lives(After(s, steps), id, userId, expiresAt)
  {
    hide Fits, Lives, Enabled, Apply, EndsSessionsOf;
    if steps != [] {
      var n := |steps| - 1;
      var before := After(s, steps[..n]);
      PrefixLegal(s, steps, n);
      PrefixUndisturbed(s, steps, n, userId);
      RunKeepsAlive(s, steps[..n], id, userId, expiresAt);
      assert Enabled(before, steps[n]) && !EndsSessionsOf(before, steps[n], userId);
      StepKeepsAlive(before, steps[n], id, userId, expiresAt);
      StepFits(before, steps[n]);
    }
  }

  /** The statement of a rotation for this session. */
  ghost predicate RotatesSession(s: State, step: Step, id: nat) {
    step.RefreshRotate? && step.request in s.refreshes && s.refreshes[step.request].sessionId == id
  }

  ghost predicate Unrotated(s: State, steps: seq<Step>, id: nat) {
    forall i | 0 <= i < |steps| :: !RotatesSession(After(s, steps[..i]), steps[i], id)
  }

  lemma {:induction false} PrefixUnrotated(s: State, steps: seq<Step>, n: nat, id: nat)
    requires Unrotated(s, steps, id) && n <= |steps|
    ensures Unrotated(s, steps[..n], id)
  {
    hide After, RotatesSession;
    forall i | 0 <= i < n
      ensures !RotatesSession(After(s, steps[..n][..i]), steps[..n][i], id)
    {
      assert steps[..n][..i] == steps[..i];
    }
  }

  lemma {:induction false} StepKeepsTokens(s: State, step: Step, id: nat)
    requires Fits(s) && Enabled(s, step) && id < s.nextSession && !RotatesSession(s, step, id)
    ensures var t := Apply(s, step);
            && id < t.nextSession
            && (id in t.sessions ==>
                  && id in s.sessions && t.sessions[id].access == s.sessions[id].access
                  && t.sessions[id].refresh == s.sessions[id].refresh)
  {
    hide Fits, LatestGrant, Taken, Usable;
  }

  lemma {:induction false} RunKeepsTokens(s: State, steps: seq<Step>, id: nat)
    requires Fits(s) && Legal(s, steps) && id < s.nextSession && Unrotated(s, steps, id)
    ensures var t := After(s, steps);
            && Fits(t) && id < t.nextSession
            && (id in t.sessions ==>
                  && id in s.sessions && t.sessions[id].access == s.sessions[id].access
                  && t.sessions[id].refresh == s.sessions[id].refresh)
  {
    hide Fits, Enabled, Apply, RotatesSession;
    if steps != [] {
      var n := |steps| - 1;
      var before := After(s, steps[..n]);
      PrefixLegal(s, steps, n);
      PrefixUnrotated(s, steps, n, id);
      RunKeepsTokens(s, steps[..n], id);
      assert Enabled(before, steps[n]) && !RotatesSession(before, steps[n], id);
      StepKeepsTokens(before, steps[n], id);
      StepFits(before, steps[n]);
    }
  }

  /** A request with this access token is let in, and one with this refresh token finds the session. */
  ghost predicate Serves(s: State, id: nat, access: nat, refresh: nat, expiresAt: int) {
    && (Admits(s, access) <==> s.now <= expiresAt)
    && (forall request | request !in s.refreshes ::
          Enabled(s, RefreshFind(request, refresh, id)) <==> s.now < expiresAt)
  }

  lemma {:induction false} LivingServes(s: State, id: nat, userId: nat, expiresAt: int)
    requires Fits(s) && Lives(s, id, userId, expiresAt) && id in s.sessions
    ensures Serves(s, id, s.sessions[id].access, s.sessions[id].refresh, expiresAt)
    ensures LatestGrant(s.log, id) == Some((s.sessions[id].access, s.sessions[id].refresh))
  {
    hide LatestGrant, SpentOnce;
    assert RowFits(s, id);
  }

  /**
    * A session lives as long as it was given: over any further run that does not end the user's
    * sessions, the tokens handed out last, at login or by a rotation since, are good until the expiry
    * set at login and no longer; only after it may the session be deleted.
    */
  lemma {:induction false} SessionLivesItsTerm(s: State, request: nat, access: nat, expiresAt: int, steps: seq<Step>)
    requires Reachable(s) && Enabled(s, LoginCreate(request, access, expiresAt))
    requires forall other | other in s.sessions :: s.sessions[other].access != access
    requires var created := Apply(s, LoginCreate(request, access, expiresAt));
             Legal(created, steps) && Undisturbed(created, steps, s.logins[request].userId)
    ensures var t, id := After(Apply(s, LoginCreate(request, access, expiresAt)), steps), s.nextSession;
            if id in t.sessions then
              && LatestGrant(t.log, id).Some?
              && var (latest, refresh) := LatestGrant(t.log, id).value; Serves(t, id, latest, refresh, expiresAt)
            else expiresAt < t.now
  {
    hide Reachable, Fits, Legal, Undisturbed, LatestGrant, Serves, After;
    var created, id := Apply(s, LoginCreate(request, access, expiresAt)), s.nextSession;
    ReachableFits(s);
    StepFits(s, LoginCreate(request, access, expiresAt));
    RunKeepsAlive(created, steps, id, s.logins[request].userId, expiresAt);
    if id in After(created, steps).sessions {
      LivingServes(After(created, steps), id, s.logins[request].userId, expiresAt);
    }
  }

  /** Until the session is rotated, these are the tokens of the login. */
  lemma {:induction false} LoginTokensLast(s: State, request: nat, access: nat, expiresAt: int, steps: seq<Step>)
    requires Reachable(s) && Enabled(s, LoginCreate(request, access, expiresAt))
    requires forall other | other in s.sessions :: s.sessions[other].access != access
    requires var created := Apply(s, LoginCreate(request, access, expiresAt));
             && Legal(created, steps) && Undisturbed(created, steps, s.logins[request].userId)
             && Unrotated(created, steps, s.nextSession)
    ensures var t, id := After(Apply(s, LoginCreate(request, access, expiresAt)), steps), s.nextSession;
            if id in t.sessions then Serves(t, id, access, s.minted, expiresAt) else expiresAt < t.now
  {
    hide Reachable, Fits, Legal, Undisturbed, Unrotated, LatestGrant, Serves, After;
    var created, id := Apply(s, LoginCreate(request, access, expiresAt)), s.nextSession;
    ReachableFits(s);
    StepFits(s, LoginCreate(request, access, expiresAt));
    RunKeepsAlive(created, steps, id, s.logins[request].userId, expiresAt);
    RunKeepsTokens(created, steps, id);
    if id in After(created, steps).sessions {
      LivingServes(After(created, steps), id, s.logins[request].userId, expiresAt);
    }
  }

  /** A rotation that goes through hands out the new tokens for the rest of the same term. */
  lemma {:induction false} RotationKeepsTheTerm(s: State, request: nat, access: nat, userId: nat, expiresAt: int)
    requires Reachable(s) && request in s.refreshes && Lives(s, s.refreshes[request].sessionId, userId, expiresAt)
    requires s.refreshes[request].sessionId in s.sessions
    requires forall other | other in s.sessions && other != s.refreshes[request].sessionId ::
               s.sessions[other].access != access
    requires s.sessions[s.refreshes[request].sessionId].refresh == s.refreshes[request].token
    ensures var t, id := Apply(s, RefreshRotate(request, access)), s.refreshes[request].sessionId;
            && Lives(t, id, userId, expiresAt) && id in t.sessions
            && LatestGrant(t.log, id) == Some((access, s.minted)) && Serves(t, id, access, s.minted, expiresAt)
  {
    hide Reachable, Fits, Serves, LatestGrant;
    ReachableFits(s);
    StepFits(s, RefreshRotate(request, access));
    LivingServes(Apply(s, RefreshRotate(request, access)), s.refreshes[request].sessionId, userId, expiresAt);
  }

  // ---------- one-time codes ----------

  ghost function Unused(s: State, userId: nat, purpose: Purpose): set<nat> {
    set id | id in s.otps && s.otps[id].userId == userId && s.otps[id].purpose == purpose && !s.otps[id].used
  }

  ghost function Count(log: seq<Event>, e: Event): nat {
    if log == [] then 0 else Count(log[..|log| - 1], e) + (if log[|log| - 1] == e then 1 else 0)
  }

  lemma {:induction false} CountSnoc(log: seq<Event>, last: Event, e: Event)
    ensures Count(log + [last], e) == Count(log, e) + (if last == e then 1 else 0)
  {
    assert (log + [last])[..|log|] == log;
  }

  /** Every issued code is unused, accepted, or was invalidated or deleted. */
  ghost predicate Budget(s: State, userId: nat, purpose: Purpose) {
    && (forall id | id in s.otps :: id < s.nextOtp)
    && Count(s.log, CodeAccepted(userId, purpose)) + |Unused(s, userId, purpose)| <=
       Count(s.log, CodeIssued(userId, purpose))
  }

  lemma {:induction false} Fewer(a: set<nat>, b: set<nat>)
    requires a <= b
    ensures |a| <= |b|
    ensures a != b ==> |a| < |b|
  {
    assert b == a + (b - a);
  }

  lemma {:induction false} AcceptedBudget(s: State, user: nat, code: nat, kind: Purpose, userId: nat, purpose: Purpose)
    requires Budget(s, userId, purpose)
    ensures Budget(Accepted(s, user, code, kind), userId, purpose)
  {
    hide Count;
    var t := Accepted(s, user, code, kind);
    var before, after := Unused(s, userId, purpose), Unused(t, userId, purpose);
    if Accepts(s, user, code, kind) {
      CountSnoc(s.log, CodeAccepted(user, kind), CodeAccepted(userId, purpose));
      CountSnoc(s.log, CodeAccepted(user, kind), CodeIssued(userId, purpose));
      assert after <= before;
      var id :| id in s.otps && Usable(s.otps[id], user, code, kind, s.now);
      assert user == userId && kind == purpose ==> id in before && id !in after;
      Fewer(after, before);
    }
  }

  lemma {:induction false} UnusedAfterIssue(s: State, otp: Otp, userId: nat, purpose: Purpose)
    requires s.nextOtp !in s.otps && !otp.used
    ensures var mine: set<nat> := if otp.userId == userId && otp.purpose == purpose then {s.nextOtp} else {};
            Unused(s.(otps := s.otps[s.nextOtp := otp]), userId, purpose) == Unused(s, userId, purpose) + mine
  {
  }

  lemma {:induction false} IssueBudget(s: State, step: Step, userId: nat, purpose: Purpose)
    requires Budget(s, userId, purpose) && step.IssueCode?
    ensures Budget(Apply(s, step), userId, purpose)
  {
    hide Count, Unused;
    var issued := CodeIssued(step.userId, step.purpose);
    CountSnoc(s.log, issued, CodeAccepted(userId, purpose));
    CountSnoc(s.log, issued, CodeIssued(userId, purpose));
    var t := s.(otps := s.otps[s.nextOtp := Otp(step.userId, step.code, step.purpose, step.expiresAt, false)]);
    UnusedAfterIssue(s, t.otps[s.nextOtp], userId, purpose);
    SameUnused(t, Apply(s, step), userId, purpose);
  }

  lemma {:induction false} SameUnused(s: State, t: State, userId: nat, purpose: Purpose)
    requires s.otps == t.otps
    ensures Unused(s, userId, purpose) == Unused(t, userId, purpose)
  {
  }

  /** Steps that log no code and only use up or remove rows. */
  lemma {:induction false} ShrinkBudget(s: State, t: State, userId: nat, purpose: Purpose)
    requires Budget(s, userId, purpose) && t.nextOtp == s.nextOtp && t.otps.Keys <= s.otps.Keys
    requires Unused(t, userId, purpose) <= Unused(s, userId, purpose)
    requires t.log == s.log || exists e: Event :: t.log == s.log + [e] && !e.CodeIssued? && !e.CodeAccepted?
    ensures Budget(t, userId, purpose)
  {
    hide Count, Unused;
    Fewer(Unused(t, userId, purpose), Unused(s, userId, purpose));
    if t.log != s.log {
      var e: Event :| t.log == s.log + [e] && !e.CodeIssued? && !e.CodeAccepted?;
      CountSnoc(s.log, e, CodeAccepted(userId, purpose));
      CountSnoc(s.log, e, CodeIssued(userId, purpose));
    }
  }

  lemma {:induction false} StepBudget(s: State, step: Step, userId: nat, purpose: Purpose)
    requires Budget(s, userId, purpose) && Enabled(s, step)
    ensures Budget(Apply(s, step), userId, purpose)
  {
    hide Count, Budget, Taken, Usable;
    match step
    case IssueCode(_, _, _, _) => IssueBudget(s, step, userId, purpose);
    case LoginConsume(_, user, code) =>
      AcceptedBudget(s, user, code, Login, userId, purpose);
      SameCodes(Accepted(s, user, code, Login), Apply(s, step), userId, purpose);
    case Reauth(user, code) => AcceptedBudget(s, user, code, Reveal, userId, purpose);
    case LoginCreate(request, access, _) =>
      if !Taken(s.sessions, access, s.nextSession) {
        assert Apply(s, step).log == s.log + [LoggedIn(s.logins[request].userId, s.nextSession, access, s.minted)];
      }
      ShrinkBudget(s, Apply(s, step), userId, purpose);
    case RefreshRotate(request, access) =>
      var found := s.refreshes[request];
      if Rotates(s, found, access) {
        assert Apply(s, step).log == s.log + [Exchanged(found.sessionId, access, s.minted, found.token)];
      }
      ShrinkBudget(s, Apply(s, step), userId, purpose);
    case _ => ShrinkBudget(s, Apply(s, step), userId, purpose);
  }

  lemma {:induction false} SameCodes(s: State, t: State, userId: nat, purpose: Purpose)
    requires Budget(s, userId, purpose) && t.otps == s.otps && t.nextOtp == s.nextOtp && t.log == s.log
    ensures Budget(t, userId, purpose)
  {
  }

  lemma {:induction false} RunBudget(now: int, steps: seq<Step>, userId: nat, purpose: Purpose)
    requires Legal(Empty(now), steps)
    ensures Budget(After(Empty(now), steps), userId, purpose)
  {
    hide Budget, Enabled, Apply;
    if steps == [] {
      EmptyBudget(now, userId, purpose);
    } else {
      var n := |steps| - 1;
      PrefixLegal(Empty(now), steps, n);
      RunBudget(now, steps[..n], userId, purpose);
      StepBudget(After(Empty(now), steps[..n]), steps[n], userId, purpose);
    }
  }

  lemma {:induction false} EmptyBudget(now: int, userId: nat, purpose: Purpose)
    ensures Budget(Empty(now), userId, purpose)
  {
    assert Unused(Empty(now), userId, purpose) == {};
  }

  /** For every user and purpose, the codes accepted never exceed the codes issued. */
  lemma {:induction false} NoCodeTwice(s: State, userId: nat, purpose: Purpose)
    requires Reachable(s)
    ensures Count(s.log, CodeAccepted(userId, purpose)) + |Unused(s, userId, purpose)| <=
            Count(s.log, CodeIssued(userId, purpose))
  {
    hide Legal, After, Count, Unused;
    var now, steps :| Run(now, steps, s);
    RunBudget(now, steps, userId, purpose);
  }

  // ---------- every login was paid for ----------

  ghost function Logins(log: seq<Event>, userId: nat): nat {
    if log == [] then 0
    else
      var last := log[|log| - 1];
      Logins(log[..|log| - 1], userId) + (if last.LoggedIn? && last.userId == userId then 1 else 0)
  }

  /** Requests of a user between having a code accepted and getting a session. */
  ghost function Pending(s: State, userId: nat): set<nat> {
    set request | request in s.logins && s.logins[request].userId == userId
  }

  ghost predicate Paid(s: State, userId: nat) {
    Logins(s.log, userId) + |Pending(s, userId)| <= Count(s.log, CodeAccepted(userId, Login))
  }

  lemma {:induction false} LogSnoc(log: seq<Event>, e: Event, userId: nat)
    ensures Logins(log + [e], userId) == Logins(log, userId) + (if e.LoggedIn? && e.userId == userId then 1 else 0)
    ensures Count(log + [e], CodeAccepted(userId, Login)) ==
            Count(log, CodeAccepted(userId, Login)) + (if e == CodeAccepted(userId, Login) then 1 else 0)
  {
    assert (log + [e])[..|log|] == log;
  }

  lemma {:induction false} SamePaid(s: State, t: State, userId: nat)
    requires Paid(s, userId) && Pending(t, userId) == Pending(s, userId)
    requires t.log == s.log || exists e: Event :: t.log == s.log + [e] && !e.LoggedIn?
    ensures Paid(t, userId)
  {
    hide Count, Logins, Pending;
    if t.log != s.log {
      var e: Event :| t.log == s.log + [e] && !e.LoggedIn?;
      LogSnoc(s.log, e, userId);
    }
  }

  lemma {:induction false} ConsumePaid(s: State, request: nat, user: nat, code: nat, userId: nat)
    requires Paid(s, userId) && request !in s.logins
    ensures Paid(Apply(s, LoginConsume(request, user, code)), userId)
  {
    hide Count, Logins, Accepts, Pending;
    var t := Apply(s, LoginConsume(request, user, code));
    if Accepts(s, user, code, Login) {
      LogSnoc(s.log, CodeAccepted(user, Login), userId);
      assert t.logins - {request} == s.logins;
      PendingLess(t, s, request, userId);
    }
  }

  lemma {:induction false} CreatePaid(s: State, request: nat, access: nat, expiresAt: int, userId: nat)
    requires Paid(s, userId) && request in s.logins
    ensures Paid(Created(s, request, access, expiresAt), userId)
  {
    hide Count, Logins, Taken, Pending;
    var t := Created(s, request, access, expiresAt);
    LogSnoc(s.log, LoggedIn(s.logins[request].userId, s.nextSession, access, s.minted), userId);
    PendingLess(s, t, request, userId);
  }

  lemma {:induction false} PendingLess(s: State, t: State, request: nat, userId: nat)
    requires request in s.logins && t.logins == s.logins - {request}
    ensures |Pending(s, userId)| == |Pending(t, userId)| + (if s.logins[request].userId == userId then 1 else 0)
  {
    var mine: set<nat> := if s.logins[request].userId == userId then {request} else {};
    assert Pending(s, userId) == Pending(t, userId) + mine;
    assert Pending(t, userId) !! mine;
  }

  lemma {:induction false} StepPaid(s: State, step: Step, userId: nat)
    requires Paid(s, userId) && Enabled(s, step)
    ensures Paid(Apply(s, step), userId)
  {
    hide Count, Logins, Taken, Paid, Usable;
    match step
    case LoginConsume(request, user, code) => ConsumePaid(s, request, user, code, userId);
    case LoginCreate(request, access, expiresAt) => CreatePaid(s, request, access, expiresAt, userId);
    case IssueCode(user, _, purpose, _) =>
      assert Apply(s, step).log == s.log + [CodeIssued(user, purpose)];
      SamePaid(s, Apply(s, step), userId);
    case Reauth(user, code) =>
      if Accepts(s, user, code, Reveal) {
        assert Apply(s, step).log == s.log + [CodeAccepted(user, Reveal)];
      }
      SamePaid(s, Apply(s, step), userId);
    case RefreshRotate(request, access) =>
      var found := s.refreshes[request];
      if Rotates(s, found, access) {
        assert Apply(s, step).log == s.log + [Exchanged(found.sessionId, access, s.minted, found.token)];
      }
      SamePaid(s, Apply(s, step), userId);
    case _ => SamePaid(s, Apply(s, step), userId);
  }

  lemma {:induction false} RunPaid(now: int, steps: seq<Step>, userId: nat)
    requires Legal(Empty(now), steps)
    ensures Paid(After(Empty(now), steps), userId)
  {
    hide Paid, Enabled, Apply;
    if steps == [] {
      NothingPaid(now, userId);
    } else {
      var n := |steps| - 1;
      PrefixLegal(Empty(now), steps, n);
      RunPaid(now, steps[..n], userId);
      StepPaid(After(Empty(now), steps[..n]), steps[n], userId);
    }
  }

  lemma {:induction false} NothingPaid(now: int, userId: nat)
    ensures Paid(Empty(now), userId)
  {
    assert Pending(Empty(now), userId) == {};
  }

  /** A user's logins never exceed the login codes accepted from that user, nor these the codes issued. */
  lemma {:induction false} LoginsArePaid(s: State, userId: nat)
    requires Reachable(s)
    ensures Logins(s.log, userId) <= Count(s.log, CodeAccepted(userId, Login)) <=
            Count(s.log, CodeIssued(userId, Login))
  {
    hide Legal, After, Count, Logins, Pending, Unused;
    var now, steps :| Run(now, steps, s);
    RunPaid(now, steps, userId);
    NoCodeTwice(s, userId, Login);
  }

  // ---------- single statements ----------

  /** Accepting a code spends every row that could have been accepted, and no other row. */
  lemma {:induction false} AcceptanceSpends(s: State, userId: nat, code: nat, purpose: Purpose)
    requires Accepts(s, userId, code, purpose)
    ensures var t := Accepted(s, userId, code, purpose);
            && !Accepts(t, userId, code, purpose)
            && t.otps.Keys == s.otps.Keys
            && forall id | id in s.otps && !Usable(s.otps[id], userId, code, purpose, s.now) :: t.otps[id] == s.otps[id]
  {
  }

  /** A code is only accepted from a row of that user and purpose that is unused and has not expired. */
  lemma {:induction false} OnlyLiveCodes(s: State, userId: nat, code: nat, purpose: Purpose)
    requires forall id | id in s.otps && s.otps[id].userId == userId && s.otps[id].purpose == purpose ::
               s.otps[id].used || s.otps[id].expiresAt <= s.now || s.otps[id].code != code
    ensures !Accepts(s, userId, code, purpose)
  {
  }

  /** Once a new code has been requested, no earlier code of that user is accepted for anything. */
  lemma {:induction false} InvalidatedIsRefused(s: State, userId: nat, code: nat, purpose: Purpose)
    ensures !Accepts(Apply(s, InvalidateCodes(userId)), userId, code, purpose)
  {
  }

  // ---------- codes over whole runs ----------

  ghost predicate Reissues(step: Step, userId: nat, code: nat, purpose: Purpose) {
    step.IssueCode? && step.userId == userId && step.code == code && step.purpose == purpose
  }

  /** Every row that holds the code is used or has expired. */
  ghost predicate Dead(s: State, userId: nat, code: nat, purpose: Purpose) {
    forall id | id in s.otps && s.otps[id].userId == userId && s.otps[id].purpose == purpose ::
      s.otps[id].used || s.otps[id].expiresAt <= s.now || s.otps[id].code != code
  }

  lemma {:induction false} StepKeepsDead(s: State, step: Step, userId: nat, code: nat, purpose: Purpose)
    requires Dead(s, userId, code, purpose) && Enabled(s, step) && !Reissues(step, userId, code, purpose)
    ensures Dead(Apply(s, step), userId, code, purpose)
  {
    hide Taken;
  }

  /**
    * A code that is refused, because it was accepted before, invalidated or expired, is refused
    * over any further run, until the same digits are issued to that user again.
    */
  lemma {:induction false} RefusedStaysRefused(s: State, steps: seq<Step>, userId: nat, code: nat, purpose: Purpose)
    requires Legal(s, steps) && !Accepts(s, userId, code, purpose)
    requires forall i | 0 <= i < |steps| :: !Reissues(steps[i], userId, code, purpose)
    ensures Dead(After(s, steps), userId, code, purpose) && !Accepts(After(s, steps), userId, code, purpose)
  {
    hide Enabled, Apply;
    if steps == [] {
      assert Dead(s, userId, code, purpose);
    } else {
      var n := |steps| - 1;
      PrefixLegal(s, steps, n);
      RefusedStaysRefused(s, steps[..n], userId, code, purpose);
      StepKeepsDead(After(s, steps[..n]), steps[n], userId, code, purpose);
      OnlyLiveCodes(After(s, steps), userId, code, purpose);
    }
  }

  ghost predicate OtpIdsOld(s: State) { forall id | id in s.otps :: id < s.nextOtp }

  lemma {:induction false} StepKeepsUsed(s: State, step: Step, id: nat)
    requires OtpIdsOld(s) && Enabled(s, step) && id < s.nextOtp && (id in s.otps ==> s.otps[id].used)
    ensures var t := Apply(s, step);
            OtpIdsOld(t) && id < t.nextOtp && (id in t.otps ==> id in s.otps && t.otps[id] == s.otps[id])
  {
    hide Taken;
  }

  lemma {:induction false} RunKeepsUsed(s: State, steps: seq<Step>, id: nat)
    requires OtpIdsOld(s) && Legal(s, steps) && id < s.nextOtp && (id in s.otps ==> s.otps[id].used)
    ensures var t := After(s, steps);
            OtpIdsOld(t) && id < t.nextOtp && (id in t.otps ==> id in s.otps && t.otps[id] == s.otps[id])
  {
    hide Enabled, Apply;
    if steps != [] {
      var n := |steps| - 1;
      PrefixLegal(s, steps, n);
      RunKeepsUsed(s, steps[..n], id);
      StepKeepsUsed(After(s, steps[..n]), steps[n], id);
    }
  }

  /**
    * A used row is never usable again: over any further run it stays as it is until it is deleted, and
    * does not come back.
    */
  lemma {:induction false} UsedStaysUsed(s: State, steps: seq<Step>, id: nat)
    requires Reachable(s) && Legal(s, steps) && id in s.otps && s.otps[id].used
    ensures var t := After(s, steps); id in t.otps ==> t.otps[id] == s.otps[id]
  {
    hide Legal, After, Unused, Count;
    var now, before :| Run(now, before, s);
    RunBudget(now, before, 0, Login);
    RunKeepsUsed(s, steps, id);
  }

  // ---------- how long a code lives ----------

  /** Using the code up, or requesting a new one. */
  ghost predicate SpendsCode(step: Step, userId: nat, code: nat, purpose: Purpose) {
    || (step.InvalidateCodes? && step.userId == userId)
    || (step.LoginConsume? && step.userId == userId && step.code == code && purpose == Login)
    || (step.Reauth? && step.userId == userId && step.code == code && purpose == Reveal)
  }

  /** The row is as it was issued, or it has expired and was deleted. */
  ghost predicate CodeLives(s: State, id: nat, otp: Otp) {
    && id < s.nextOtp && !otp.used
    && (if id in s.otps then s.otps[id] == otp else otp.expiresAt < s.now)
  }

  lemma {:induction false} StepKeepsCode(s: State, step: Step, id: nat, otp: Otp)
    requires CodeLives(s, id, otp) && Enabled(s, step) && !SpendsCode(step, otp.userId, otp.code, otp.purpose)
    ensures CodeLives(Apply(s, step), id, otp)
  {
    hide Taken;
  }

  lemma {:induction false} RunKeepsCode(s: State, steps: seq<Step>, id: nat, otp: Otp)
    requires CodeLives(s, id, otp) && Legal(s, steps)
    requires forall i | 0 <= i < |steps| :: !SpendsCode(steps[i], otp.userId, otp.code, otp.purpose)
    ensures CodeLives(After(s, steps), id, otp)
  {
    hide CodeLives, Enabled, Apply, SpendsCode;
    if steps != [] {
      var n := |steps| - 1;
      PrefixLegal(s, steps, n);
      RunKeepsCode(s, steps[..n], id, otp);
      assert Enabled(After(s, steps[..n]), steps[n]);
      StepKeepsCode(After(s, steps[..n]), steps[n], id, otp);
    }
  }

  /**
    * A code that is issued is good until its expiry, over any further run that neither uses it up nor
    * requests a new one: it is accepted at every moment before, and its row at none from then on.
    */
  lemma {:induction false} CodeLivesItsTerm(s: State, userId: nat, code: nat, purpose: Purpose, expiresAt: int,
                                            steps: seq<Step>)
    requires Legal(Apply(s, IssueCode(userId, code, purpose, expiresAt)), steps)
    requires forall i | 0 <= i < |steps| :: !SpendsCode(steps[i], userId, code, purpose)
    ensures var t, id := After(Apply(s, IssueCode(userId, code, purpose, expiresAt)), steps), s.nextOtp;
            && (t.now < expiresAt ==> Accepts(t, userId, code, purpose))
            && (id in t.otps && Usable(t.otps[id], userId, code, purpose, t.now) <==> t.now < expiresAt)
  {
    hide Legal, After, SpendsCode;
    var issued := Apply(s, IssueCode(userId, code, purpose, expiresAt));
    RunKeepsCode(issued, steps, s.nextOtp, Otp(userId, code, purpose, expiresAt, false));
  }
}
