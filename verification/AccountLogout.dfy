/** Which sessions a provider logout, a denial, a local sign-out or a credential change ends, and
    that a logout token takes effect once. */
module AccountLogout {
  import opened Wrappers
  import opened Accounts
  import opened AccountSteps
  import opened AccountInvariants
  import opened AccountSessions

  // ----- back-channel logout ends exactly the named sessions -----

  /** With a sid: the sessions of that provider session, and the named user's sessions that carry
      no sid. */
  predicate NamedBySid(s: State, l: LogoutToken, t: Token)
    requires t.userId in s.users
  {
    var identity := s.users[t.userId].identity;
    && t.authMethod == BySso && identity.Some? && identity.value.issuer == l.issuer
    && (t.sid == l.sid || (t.sid.None? && l.subject == Some(identity.value.subject)))
  }

  /** Without a sid: the SSO sessions of a linked account, or every session of an SSO-only one. */
  predicate OfIdentity(s: State, i: Identity, t: Token)
    requires t.userId in s.users
  {
    var u := s.users[t.userId];
    u.identity == Some(i) && (u.linked ==> t.authMethod == BySso)
  }

  lemma BumpedLogoutVersion(s: State, i: Identity, j: Identity)
    requires HasOwner(s.users, i)
    ensures LogoutVersion(BumpLogoutVersion(s, i), j) == LogoutVersion(s, j) + (if i == j then 1 else 0)
  {
  }

  lemma UnownedBumpIsNothing(s: State, i: Identity, t: Token)
    requires t.userId in s.users && s.users[t.userId].identity.Some? && s.users[t.userId].identity.value != i
    ensures LogoutVersion(BumpLogoutVersion(s, i), s.users[t.userId].identity.value) ==
            LogoutVersion(s, s.users[t.userId].identity.value)
  {
  }

  lemma SidLogoutRows(s: State, l: LogoutToken)
    requires LogoutTakesEffect(s, l) && l.sid.Some?
    ensures var s' := ApplyLogout(s, l);
            && s'.users == s.users
            && s'.revokedSids == Pruned(s.revokedSids, s.now)[(l.issuer, l.sid.value) := s.now + OIDC_SESSION_LIFETIME]
            && s'.logoutVersions ==
                 (if l.subject.Some? then BumpLogoutVersion(s, Identity(l.issuer, l.subject.value))
                   else s).logoutVersions
  {
    var s1 := s.(processedLogouts := Pruned(s.processedLogouts, s.now)[(l.issuer, l.tokenId) := MarkerExpiry(l)]);
    var s2 := RevokeSid(s1, l.issuer, l.sid.value);
    assert s2.users == s.users && s2.logoutVersions == s.logoutVersions;
  }

  /** Section 2.6 of OpenID Connect Back-Channel Logout 1.0: a logout that names a session ends that
      session's tokens and the named user's tokens without one, and leaves all others accepted. */
  lemma SidLogoutEndsExactly(cfg: Config, s: State, l: LogoutToken, t: Token)
    requires Accepts(s, t) && Enabled(cfg, s, BackchannelLogout(l)) && LogoutTakesEffect(s, l) && l.sid.Some?
    ensures Accepts(Next(cfg, s, BackchannelLogout(l)), t) <==> !NamedBySid(s, l, t)
  {
    var identity := s.users[t.userId].identity;
    if t.authMethod == BySso && identity.Some? {
      if t.sid.Some? {
        SidLogoutOfSession(s, l, t);
      } else {
        SidLogoutOfUser(s, l, t);
      }
    } else {
      SidLogoutRows(s, l);
    }
  }

  lemma SidLogoutOfSession(s: State, l: LogoutToken, t: Token)
    requires Accepts(s, t) && LogoutTakesEffect(s, l) && l.sid.Some?
    requires t.authMethod == BySso && s.users[t.userId].identity.Some? && t.sid.Some?
    ensures Accepts(ApplyLogout(s, l), t) <==> !NamedBySid(s, l, t)
  {
    var s', issuer := ApplyLogout(s, l), s.users[t.userId].identity.value.issuer;
    SidLogoutRows(s, l);
    assert SidRevoked(s', issuer, t.sid.value)
      <==> SidRevoked(s, issuer, t.sid.value) || (issuer == l.issuer && t.sid == l.sid);
  }

  lemma SidLogoutOfUser(s: State, l: LogoutToken, t: Token)
    requires Accepts(s, t) && LogoutTakesEffect(s, l) && l.sid.Some?
    requires t.authMethod == BySso && s.users[t.userId].identity.Some? && t.sid.None?
    ensures Accepts(ApplyLogout(s, l), t) <==> !NamedBySid(s, l, t)
  {
    var identity := s.users[t.userId].identity.value;
    SidLogoutRows(s, l);
    assert t.userId in s.users.Keys && HasOwner(s.users, identity);
    if l.subject.Some? {
      var i := Identity(l.issuer, l.subject.value);
      if identity == i {
        BumpedLogoutVersion(s, i, i);
      } else {
        UnownedBumpIsNothing(s, i, t);
      }
    }
  }

  lemma RevokedIdentityRejects(s: State, i: Identity, t: Token)
    requires Accepts(s, t)
    ensures Accepts(RevokeIdentity(s, i), t) <==> !OfIdentity(s, i, t)
  {
  }

  lemma AcceptsIgnoresMarkers(s: State, rows: map<(string, string), int>, t: Token)
    ensures Accepts(s.(processedLogouts := rows), t) == Accepts(s, t)
  {
  }

  /** A logout that names only the user ends that identity's sessions and no others. */
  lemma SubjectLogoutEndsExactly(cfg: Config, s: State, l: LogoutToken, t: Token)
    requires Accepts(s, t) && Enabled(cfg, s, BackchannelLogout(l)) && LogoutTakesEffect(s, l)
    requires l.sid.None? && l.subject.Some?
    ensures Accepts(Next(cfg, s, BackchannelLogout(l)), t) <==> !OfIdentity(s, Identity(l.issuer, l.subject.value), t)
  {
    var rows := Pruned(s.processedLogouts, s.now)[(l.issuer, l.tokenId) := MarkerExpiry(l)];
    AcceptsIgnoresMarkers(s, rows, t);
    RevokedIdentityRejects(s.(processedLogouts := rows), Identity(l.issuer, l.subject.value), t);
  }

  /** A denial at sign-in does the same. */
  lemma DenialEndsExactly(cfg: Config, s: State, i: Identity, t: Token)
    requires Accepts(s, t) && Enabled(cfg, s, SsoDenied(i))
    ensures Accepts(Next(cfg, s, SsoDenied(i)), t) <==> !OfIdentity(s, i, t)
  {
  }

  /** A linked account whose SSO role changes at a sign-in loses the SSO sessions it had; an SSO-only
      account whose role changes loses all of them. */
  lemma RoleChangeEndsSessions(cfg: Config, s: State, i: Identity, username: string, role: Role, t: Token)
    requires Inv(s) && t in s.issued && t.userId in s.users && IdentityOwner(s, i) == Some(t.userId)
    requires Upsert(cfg, s, i, username, role).Some?
    requires OfIdentity(s, i, t)
    requires var u := s.users[t.userId]; if u.linked then u.ssoRole != Some(role) else u.role != role
    ensures Outdated(Upsert(cfg, s, i, username, role).value.0, t)
  {
    assert TokenOk(s, t);
  }

  /** The same for the sign-in itself, for good; an automatic link to another account removes the
      account the identity had. */
  lemma RoleChangeEndsSessionsForGood(cfg: Config, s: State, i: Identity, username: string, preferred: bool, role: Role,
      sid: Option<string>, events: seq<Event>, t: Token)
    requires Inv(s) && Enabled(cfg, s, SsoSignIn(i, username, preferred, role, sid))
    requires t in s.issued && t.userId in s.users && IdentityOwner(s, i) == Some(t.userId) && OfIdentity(s, i, t)
    requires var u := s.users[t.userId]; if u.linked then u.ssoRole != Some(role) else u.role != role
    ensures !Accepts(Run(cfg, Next(cfg, s, SsoSignIn(i, username, preferred, role, sid)), events), t)
  {
    var e := SsoSignIn(i, username, preferred, role, sid);
    var signed := SsoAccountFor(cfg, s, i, username, preferred, role).value;
    SignInKeepsRows(signed.0, signed.1, sid);
    if AutoLink(s, i, username, preferred, role).Some? {
      LinkRemovesOwner(s, i, username, preferred, role, t);
    } else {
      RoleChangeEndsSessions(cfg, s, i, username, role, t);
    }
    StepKeepsInv(cfg, s, e);
    StepIssuesOne(cfg, s, e);
    GoneForever(cfg, Next(cfg, s, e), events, t);
  }

  lemma SignInKeepsRows(s: State, id: UserId, sid: Option<string>)
    requires id in s.users
    ensures forall t :: Outdated(s, t) ==> Outdated(SignIn(s, id, BySso, sid), t)
  {
  }

  lemma LinkRemovesOwner(s: State, i: Identity, username: string, preferred: bool, role: Role, t: Token)
    requires t.userId in s.users && IdentityOwner(s, i) == Some(t.userId)
    requires AutoLink(s, i, username, preferred, role).Some?
    ensures Outdated(AutoLink(s, i, username, preferred, role).value.0, t)
  {
  }

  // ----- a logout token takes effect once -----

  /** The marker outlives the time in which the token could be accepted again. */
  predicate MarkerHolds(s: State, issuer: string, tokenId: string, until: int) {
    s.now >= until || ((issuer, tokenId) in s.processedLogouts && s.processedLogouts[(issuer, tokenId)] >= until)
  }

  lemma LogoutRows(s: State, l: LogoutToken)
    ensures ApplyLogout(s, l).processedLogouts ==
      (if LogoutTakesEffect(s, l) then Pruned(s.processedLogouts, s.now)[(l.issuer, l.tokenId) := MarkerExpiry(l)]
       else Pruned(s.processedLogouts, s.now))
  {
  }

  lemma StepKeepsMarker(cfg: Config, s: State, e: Event, issuer: string, tokenId: string, until: int)
    requires Inv(s) && MarkerHolds(s, issuer, tokenId, until)
    ensures MarkerHolds(Next(cfg, s, e), issuer, tokenId, until)
  {
    StepIssuesOne(cfg, s, e);
    if Enabled(cfg, s, e) && e.BackchannelLogout? {
      LogoutRows(s, e.logout);
    } else {
      StepFrame(cfg, s, e);
    }
  }

  lemma {:induction false} RunKeepsMarker(cfg: Config, s: State, events: seq<Event>, issuer: string, tokenId: string,
      until: int)
    requires Inv(s) && MarkerHolds(s, issuer, tokenId, until)
    ensures MarkerHolds(Run(cfg, s, events), issuer, tokenId, until)
    decreases |events|
  {
    if events != [] {
      StepKeepsInv(cfg, s, events[0]);
      StepKeepsMarker(cfg, s, events[0], issuer, tokenId, until);
      RunKeepsMarker(cfg, Next(cfg, s, events[0]), events[1..], issuer, tokenId, until);
    }
  }

  /** After a logout took effect, no later delivery with the same issuer and token id, issued no
      later, takes effect until the marker has expired: it changes nothing but expired markers. The
      marker outlives the time in which the token passes its check, so a replay that is applied when it
      is checked never revokes a later sign-in. */
  lemma LogoutTakesEffectOnce(cfg: Config, s: State, l: LogoutToken, events: seq<Event>, replay: LogoutToken)
    requires Inv(s) && Enabled(cfg, s, BackchannelLogout(l)) && LogoutTakesEffect(s, l)
    requires replay.issuer == l.issuer && replay.tokenId == l.tokenId && replay.issuedAt <= l.issuedAt
    ensures var s' := Run(cfg, Next(cfg, s, BackchannelLogout(l)), events);
            && (s'.now < MarkerExpiry(l) ==>
                  ApplyLogout(s', replay) == s'.(processedLogouts := Pruned(s'.processedLogouts, s'.now)))
            && (LogoutTokenValid(replay, s'.now) ==> s'.now < MarkerExpiry(l))
  {
    var s1 := Next(cfg, s, BackchannelLogout(l));
    StepKeepsInv(cfg, s, BackchannelLogout(l));
    LogoutRows(s, l);
    RunKeepsMarker(cfg, s1, events, l.issuer, l.tokenId, MarkerExpiry(l));
  }

  /** No delivery of a logout with this issuer and token id that was issued later than `l`. */
  predicate NoLaterLogout(e: Event, l: LogoutToken) {
    e.BackchannelLogout? && e.logout.issuer == l.issuer && e.logout.tokenId == l.tokenId ==>
      e.logout.issuedAt <= l.issuedAt
  }

  /** The logout stays checked, and the marker of its token id is not younger than its own. */
  predicate MarkerBounded(s: State, l: LogoutToken) {
    && l in s.verifiedLogouts
    && ((l.issuer, l.tokenId) in s.processedLogouts ==> s.processedLogouts[(l.issuer, l.tokenId)] <= MarkerExpiry(l))
  }

  lemma ChecksStay(cfg: Config, s: State, e: Event)
    ensures s.verifiedLogouts <= Next(cfg, s, e).verifiedLogouts
  {
    StepFrame(cfg, s, e);
  }

  lemma StepKeepsMarkerBounded(cfg: Config, s: State, e: Event, l: LogoutToken)
    requires MarkerBounded(s, l) && NoLaterLogout(e, l)
    ensures MarkerBounded(Next(cfg, s, e), l)
  {
    ChecksStay(cfg, s, e);
    if Enabled(cfg, s, e) && e.BackchannelLogout? {
      LogoutRows(s, e.logout);
    } else {
      StepFrame(cfg, s, e);
    }
  }

  lemma {:induction false} RunKeepsMarkerBounded(cfg: Config, s: State, events: seq<Event>, l: LogoutToken)
    requires MarkerBounded(s, l) && forall i :: 0 <= i < |events| ==> NoLaterLogout(events[i], l)
    ensures MarkerBounded(Run(cfg, s, events), l)
    decreases |events|
  {
    if events != [] {
      StepKeepsMarkerBounded(cfg, s, events[0], l);
      RunKeepsMarkerBounded(cfg, Next(cfg, s, events[0]), events[1..], l);
    }
  }

  /** A second delivery that was checked in time can be applied after any run. It takes effect exactly
      when its marker has expired by then, whatever else happened in between: later sign-ins, other
      logouts, and further deliveries of this one. */
  lemma ReplayTakesEffectIff(cfg: Config, s: State, l: LogoutToken, events: seq<Event>)
    requires Inv(s) && Enabled(cfg, s, BackchannelLogout(l)) && LogoutTakesEffect(s, l)
    requires forall i :: 0 <= i < |events| ==> NoLaterLogout(events[i], l)
    ensures var s' := Run(cfg, Next(cfg, s, BackchannelLogout(l)), events);
            && Enabled(cfg, s', BackchannelLogout(l))
            && (LogoutTakesEffect(s', l) <==> s'.now >= MarkerExpiry(l))
  {
    var s1 := Next(cfg, s, BackchannelLogout(l));
    StepKeepsInv(cfg, s, BackchannelLogout(l));
    LogoutRows(s, l);
    RunKeepsMarker(cfg, s1, events, l.issuer, l.tokenId, MarkerExpiry(l));
    RunKeepsMarkerBounded(cfg, s1, events, l);
  }

  // ----- steps of the account's holder and of administrators -----

  /** Steps that end every session the account had before. */
  predicate EndsAllSessions(e: Event) {
    || e.ChangeCredential? || e.ConfirmLink? || e.SelfUnlink?
    || e.ResetPassword? || e.ResetMfa? || e.AdminUnlink? || e.DeleteUser?
    || (e.PatchUser? && e.newDisabled == Some(true))
  }

  predicate ByHolder(e: Event) {
    e.ChangeCredential? || e.ConfirmLink? || e.SelfUnlink?
  }

  function AffectedUser(e: Event): UserId
    requires EndsAllSessions(e)
  {
    if e.ConfirmLink? || e.SelfUnlink? then e.token.userId else e.id
  }

  lemma HolderChangeEndsSessions(cfg: Config, s: State, e: Event, t: Token)
    requires Inv(s) && Enabled(cfg, s, e) && ByHolder(e)
    requires t in s.issued && t.userId == AffectedUser(e)
    ensures Outdated(Effect(cfg, s, e), t)
  {
    assert TokenOk(s, t);
    if e.ConfirmLink? {
      LinkEndsSessions(cfg, s, e, t);
    }
  }

  lemma LinkEndsSessions(cfg: Config, s: State, e: Event, t: Token)
    requires TokenOk(s, t) && Enabled(cfg, s, e) && e.ConfirmLink? && t.userId == e.token.userId
    ensures Outdated(Effect(cfg, s, e), t)
  {
  }

  lemma AdminChangeEndsSessions(cfg: Config, s: State, e: Event, t: Token)
    requires Inv(s) && Enabled(cfg, s, e) && EndsAllSessions(e) && !ByHolder(e)
    requires t in s.issued && t.userId == e.id
    ensures Outdated(Effect(cfg, s, e), t)
  {
    assert TokenOk(s, t);
  }

  /** A disable, password change, authenticator change, credential reset, unlink, verified link or
      deletion ends every session the account had, for good. */
  lemma AccountChangeEndsSessionsForGood(cfg: Config, s: State, e: Event, events: seq<Event>, t: Token)
    requires Inv(s) && Enabled(cfg, s, e) && EndsAllSessions(e)
    requires t in s.issued && t.userId == AffectedUser(e)
    ensures !Accepts(Run(cfg, Next(cfg, s, e), events), t)
  {
    if ByHolder(e) {
      HolderChangeEndsSessions(cfg, s, e, t);
    } else {
      AdminChangeEndsSessions(cfg, s, e, t);
    }
    StepKeepsInv(cfg, s, e);
    StepIssuesOne(cfg, s, e);
    GoneForever(cfg, Next(cfg, s, e), events, t);
  }

  // ----- a credential change that outlives its session -----

  lemma {:induction false} CheckedChangeStays(cfg: Config, s: State, events: seq<Event>, change: (UserId, Credential))
    requires change in s.checkedChanges
    ensures change in Run(cfg, s, events).checkedChanges
    decreases |events|
  {
    if events != [] {
      CheckedChanges(cfg, s, events[0]);
      CheckedChangeStays(cfg, Next(cfg, s, events[0]), events[1..], change);
    }
  }

  /** The session is not looked at again between the check of a credential change and its write. After
      any run, resets, sign-outs and disables included, the change takes effect exactly when the account
      still exists, and the token it signs is accepted exactly when the account is not disabled. */
  lemma CheckedChangeTakesEffectIff(cfg: Config, s: State, t: Token, c: Credential, events: seq<Event>)
    requires Inv(s) && Enabled(cfg, s, CheckChange(t, c))
    ensures var s', change := Run(cfg, Next(cfg, s, CheckChange(t, c)), events), ChangeCredential(t.userId, c);
            && (Enabled(cfg, s', change) <==> t.userId in s'.users)
            && (t.userId in s'.users ==>
                  var s'' := Next(cfg, s', change);
                  var signed := NewToken(s'', t.userId, ByPassword, s'.now, None, s'.nextSession);
                  && s''.users == s'.users[t.userId := WithNewCredential(s'.users[t.userId], c)]
                  && (Accepts(s'', signed) <==> !s'.users[t.userId].disabled))
  {
    var s1 := Next(cfg, s, CheckChange(t, c));
    StepKeepsInv(cfg, s, CheckChange(t, c));
    RunKeepsInv(cfg, s1, events);
    CheckedChangeStays(cfg, s1, events, (t.userId, c));
    var s' := Run(cfg, s1, events);
    if t.userId in s'.users {
      NewTokenAccepted(s', t.userId, c);
    }
  }

  lemma NewTokenAccepted(s: State, id: UserId, c: Credential)
    requires RevokedSessionsOk(s) && id in s.users
    ensures var s' := SignIn(SetUser(s, id, WithNewCredential(s.users[id], c)), id, ByPassword, None);
            Accepts(s', NewToken(s', id, ByPassword, s.now, None, s.nextSession)) <==> !s.users[id].disabled
  {
  }

  // ----- signing out, for every token of the session and every run -----

  /** The session's row lasts until 30 days after its sign-in. */
  predicate SignedOut(s: State, session: nat, until: int) {
    s.now >= until || (session in s.revokedSessions && s.revokedSessions[session] >= until)
  }

  lemma {:induction false} SignedOutStays(cfg: Config, s: State, events: seq<Event>, token: Token)
    requires Inv(s) && token in s.issued && SignedOut(s, token.session, token.authenticatedAt + SESSION_LIFETIME)
    ensures SignedOut(Run(cfg, s, events), token.session, token.authenticatedAt + SESSION_LIFETIME)
    ensures Inv(Run(cfg, s, events)) && token in Run(cfg, s, events).issued
    decreases |events|
  {
    if events != [] {
      var e := events[0];
      StepKeepsInv(cfg, s, e);
      StepIssuesOne(cfg, s, e);
      assert forall t :: t in s.issued && t.session == token.session ==> SameSession(t, token);
      if s.now < token.authenticatedAt + SESSION_LIFETIME {
        SessionRowHoldsStays(cfg, s, e, token.session, token.authenticatedAt);
      }
      SignedOutStays(cfg, Next(cfg, s, e), events[1..], token);
    }
  }

  /** Signing out is permanent for every token the session ever has, the copies it had and any signed
      later, up to one second: after any run such a token is accepted exactly in its very last second,
      and only if it lives the full 30 days of the session. */
  lemma SignedOutTokenReturnsIff(cfg: Config, s: State, token: Token, events: seq<Event>, t: Token)
    requires Inv(s) && Enabled(cfg, s, Logout(token)) && t.session == token.session
    ensures var s' := Run(cfg, Next(cfg, s, Logout(token)), events);
            Accepts(s', t) <==>
              t in s'.issued && s'.now == t.expires == t.authenticatedAt + SESSION_LIFETIME && RowAccepts(s', t)
  {
    var s1 := Next(cfg, s, Logout(token));
    var s' := Run(cfg, s1, events);
    StepKeepsInv(cfg, s, Logout(token));
    SignedOutStays(cfg, s1, events, token);
    if t in s'.issued {
      assert SameSession(t, token);
      assert TokenOk(s', t);
      if s'.now == t.expires == t.authenticatedAt + SESSION_LIFETIME {
        assert !SessionRevoked(s', t.session);
      }
    }
  }

  /** The one second is real: a password sign-in always issues such a token. */
  lemma SignedOutTokenReturns(cfg: Config, s: State, id: UserId)
    requires Inv(s) && Enabled(cfg, s, PasswordLogin(id))
    ensures var s1 := Next(cfg, s, PasswordLogin(id));
            var t := NewToken(s, id, ByPassword, s.now, None, s.nextSession);
            && Accepts(s1, t)
            && Accepts(Run(cfg, Next(cfg, s1, Logout(t)), [Tick(SESSION_LIFETIME)]), t)
  {
    var s1 := Next(cfg, s, PasswordLogin(id));
    var t := NewToken(s, id, ByPassword, s.now, None, s.nextSession);
    StepKeepsInv(cfg, s, PasswordLogin(id));
    assert !SessionRevoked(s1, t.session);
    var s2 := Next(cfg, s1, Logout(t));
    var events := [Tick(SESSION_LIFETIME)];
    assert Run(cfg, s2, events) == Next(cfg, s2, events[0]) by {
      assert events[1..] == [];
    }
    SignedOutTokenReturnsIff(cfg, s1, t, events, t);
  }

  /** The provider's logout of a session, likewise: after any run a token it named by its sid is accepted
      exactly in its very last second, and only if it was issued in the second of the logout. */
  lemma SidLogoutTokenReturnsIff(cfg: Config, s: State, l: LogoutToken, events: seq<Event>, t: Token)
    requires Inv(s) && Enabled(cfg, s, BackchannelLogout(l)) && LogoutTakesEffect(s, l)
    requires Accepts(s, t) && l.sid.Some? && t.sid == l.sid && NamedBySid(s, l, t)
    ensures var s' := Run(cfg, Next(cfg, s, BackchannelLogout(l)), events);
            Accepts(s', t) <==>
              && s'.now == t.expires == s.now + OIDC_SESSION_LIFETIME
              && !SessionRevoked(s', t.session) && RowAccepts(s', t)
  {
    var e := BackchannelLogout(l);
    var s1 := Next(cfg, s, e);
    assert TokenOk(s, t);
    SidLogoutEndsExactly(cfg, s, l, t);
    EndedSessionNeverReturns(cfg, s, e, events, t);
    StepKeepsInv(cfg, s, e);
    StepIssuesOne(cfg, s, e);
    RunClock(cfg, s1, events);
  }
}
