/** Theorems about sessions over whole runs: the identity provider cannot reach local sessions, and
    a session that has ended does not come back. */
module AccountSessions {
  import opened Wrappers
  import opened Accounts
  import opened AccountSteps
  import opened AccountInvariants

  // ----- provider non-interference -----

  /** Nothing a local session depends on differs. */
  predicate LocallySame(u: User, u': User) {
    && u'.username == u.username && u'.role == u.role && u'.version == u.version && u'.disabled == u.disabled
    && (IsOidcOnly(u') ==> IsOidcOnly(u))
  }

  ghost predicate LocalAccountsSame(s: State, s': State) {
    forall id :: id in s.users && !IsOidcOnly(s.users[id]) ==> id in s'.users && LocallySame(s.users[id], s'.users[id])
  }

  lemma LinkKeepsLocal(s: State, id: UserId, i: Identity, role: Role)
    requires AccountsCoherent(s) && Link(s, id, i, role, false).Some?
    ensures LocalAccountsSame(s, Link(s, id, i, role, false).value)
  {
    var owner := IdentityOwner(s, i);
    if owner.Some? && owner.value != id {
      assert IsOidcOnly(s.users[owner.value]);
    }
  }

  lemma SetOidcOnlyKeepsLocal(s: State, id: UserId, u: User)
    requires id in s.users && (IsOidcOnly(s.users[id]) || LocallySame(s.users[id], u))
    ensures LocalAccountsSame(s, SetUser(s, id, u))
  {
  }

  lemma UpsertKeepsLocal(cfg: Config, s: State, i: Identity, username: string, role: Role)
    requires AccountsCoherent(s) && Upsert(cfg, s, i, username, role).Some?
    ensures LocalAccountsSame(s, Upsert(cfg, s, i, username, role).value.0)
  {
    var owner, target := IdentityOwner(s, i), UpsertTarget(s, i, username);
    var stored := StoredUsername(cfg, s, i, username);
    if owner.Some? && s.users[owner.value].linked {
      SetOidcOnlyKeepsLocal(s, owner.value, RefreshedLink(s.users[owner.value], role));
    } else if target.Some? {
      SetOidcOnlyKeepsLocal(s, target.value, RefreshedSso(s.users[target.value], stored, role, i));
    }
  }

  lemma RevokeIdentityKeepsLocal(s: State, i: Identity)
    requires AccountsCoherent(s)
    ensures LocalAccountsSame(s, RevokeIdentity(s, i))
  {
  }

  lemma RevokeKeepsLocal(s: State, l: LogoutToken)
    requires AccountsCoherent(s)
    ensures LocalAccountsSame(s, ApplyLogout(s, l))
  {
    if LogoutTakesEffect(s, l) && l.sid.None? && l.subject.Some? {
      var s1 := s.(processedLogouts := Pruned(s.processedLogouts, s.now)[(l.issuer, l.tokenId) := MarkerExpiry(l)]);
      RevokeIdentityKeepsLocal(s1, Identity(l.issuer, l.subject.value));
    }
  }

  lemma DenyKeepsLocal(s: State, i: Identity)
    requires AccountsCoherent(s)
    ensures LocalAccountsSame(s, Deny(s, i))
  {
  }

  lemma SsoKeepsLocal(cfg: Config, s: State, i: Identity, username: string, preferred: bool, role: Role)
    requires AccountsCoherent(s) && SsoAccountFor(cfg, s, i, username, preferred, role).Some?
    ensures LocalAccountsSame(s, SsoAccountFor(cfg, s, i, username, preferred, role).value.0)
  {
    if AutoLink(s, i, username, preferred, role).Some? {
      LinkKeepsLocal(s, UserNamed(s, username).value, i, role);
    } else {
      UpsertKeepsLocal(cfg, s, i, username, role);
    }
  }

  lemma SameUsersKeepLocal(s: State, s1: State, s2: State)
    requires LocalAccountsSame(s, s1) && s2.users == s1.users
    ensures LocalAccountsSame(s, s2)
  {
  }

  lemma ProviderKeepsLocalAccounts(cfg: Config, s: State, e: Event)
    requires AccountsCoherent(s) && IsProviderEvent(e)
    ensures LocalAccountsSame(s, Next(cfg, s, e))
  {
    if Enabled(cfg, s, e) {
      match e
      case SsoSignIn(i, username, preferred, role, _) =>
        SsoKeepsLocal(cfg, s, i, username, preferred, role);
        SameUsersKeepLocal(s, SsoAccountFor(cfg, s, i, username, preferred, role).value.0, Effect(cfg, s, e));
      case SsoDenied(i) => DenyKeepsLocal(s, i);
      case VerifyLogout(_) => SameUsersKeepLocal(s, s, Effect(cfg, s, e));
      case BackchannelLogout(l) => RevokeKeepsLocal(s, l);
    }
  }

  /** An accepted password or passkey session stays accepted across any SSO sign-in, automatic
      link, denial or back-channel logout, under the same name and with the same access. */
  lemma ProviderStepKeepsLocalSession(cfg: Config, s: State, e: Event, t: Token)
    requires Inv(s) && IsProviderEvent(e) && Accepts(s, t) && t.authMethod != BySso
    ensures Accepts(Next(cfg, s, e), t)
    ensures Next(cfg, s, e).users[t.userId].username == s.users[t.userId].username
    ensures SessionRole(Next(cfg, s, e), t) == SessionRole(s, t)
  {
    assert TokenOk(s, t);
    assert !IsOidcOnly(s.users[t.userId]);
    ProviderKeepsLocalAccounts(cfg, s, e);
    StepIssuesOne(cfg, s, e);
    StepFrame(cfg, s, e);
    SameRowKeepsSession(s, Next(cfg, s, e), t);
  }

  lemma SameRowKeepsSession(s: State, s': State, t: Token)
    requires Accepts(s, t) && t.authMethod != BySso && !IsOidcOnly(s.users[t.userId]) && LocalAccountsSame(s, s')
    requires s'.now == s.now && s'.revokedSessions == s.revokedSessions && s.issued <= s'.issued
    ensures Accepts(s', t) && s'.users[t.userId].username == s.users[t.userId].username
    ensures SessionRole(s', t) == SessionRole(s, t)
  {
  }

  /** The provider events that reach the local sessions of a row, whatever the row: only those of an
      identity that the row has without being linked to it. */
  ghost predicate EndsLocalSessions(s: State, e: Event, id: UserId)
    requires id in s.users
  {
    var u := s.users[id];
    && !u.linked
    && match e
       case SsoSignIn(i, _, _, role, _) => IdentityOwner(s, i) == Some(id) && u.role != role
       case SsoDenied(i) => u.identity == Some(i)
       case BackchannelLogout(l) =>
         && LogoutTakesEffect(s, l) && l.sid.None? && l.subject.Some?
         && u.identity == Some(Identity(l.issuer, l.subject.value))
       case _ => false
  }

  /** Exactly those end the session, on any row with a password: also on one that an older release left
      with a password, an identity and no link. */
  lemma ProviderKeepsLocalSessionIff(cfg: Config, s: State, e: Event, t: Token)
    requires Accepts(s, t) && t.authMethod != BySso && t.userId < s.nextUser && s.users[t.userId].hasPassword
    requires IsProviderEvent(e) && Enabled(cfg, s, e)
    ensures Accepts(Next(cfg, s, e), t) <==> !EndsLocalSessions(s, e, t.userId)
  {
    match e
    case SsoSignIn(i, username, preferred, role, sid) => SignInKeepsLocalSessionIff(cfg, s, e, t);
    case SsoDenied(i) => assert Deny(s, i).users.Keys == s.users.Keys;
    case VerifyLogout(_) =>
    case BackchannelLogout(l) => LogoutKeepsLocalSessionIff(s, l, t);
  }

  lemma SignInKeepsLocalSessionIff(cfg: Config, s: State, e: Event, t: Token)
    requires Accepts(s, t) && t.authMethod != BySso && t.userId < s.nextUser && s.users[t.userId].hasPassword
    requires e.SsoSignIn? && Enabled(cfg, s, e)
    ensures Accepts(Next(cfg, s, e), t) <==> !EndsLocalSessions(s, e, t.userId)
  {
    var s1 := SsoAccountFor(cfg, s, e.identity, e.username, e.preferred, e.role).value.0;
    if AutoLink(s, e.identity, e.username, e.preferred, e.role).Some? {
      AutoLinkKeepsRow(s, e.identity, e.username, e.preferred, e.role, t.userId);
    } else {
      UpsertKeepsRowIff(cfg, s, e.identity, e.username, e.role, t.userId);
    }
    assert RowKept(s.users[t.userId], s1.users[t.userId], EndsLocalSessions(s, e, t.userId));
  }

  lemma AutoLinkKeepsRow(s: State, i: Identity, username: string, preferred: bool, role: Role, id: UserId)
    requires AutoLink(s, i, username, preferred, role).Some?
    requires id in s.users && s.users[id].hasPassword
    ensures IdentityOwner(s, i) != Some(id)
    ensures var users := AutoLink(s, i, username, preferred, role).value.0.users;
            id in users && RowKept(s.users[id], users[id], false)
  {
  }

  lemma UpsertKeepsRowIff(cfg: Config, s: State, i: Identity, username: string, role: Role, id: UserId)
    requires Upsert(cfg, s, i, username, role).Some?
    requires id in s.users && s.users[id].hasPassword && id < s.nextUser
    ensures id in Upsert(cfg, s, i, username, role).value.0.users
    ensures RowKept(s.users[id], Upsert(cfg, s, i, username, role).value.0.users[id],
              IdentityOwner(s, i) == Some(id) && !s.users[id].linked && s.users[id].role != role)
  {
    TargetWithPassword(s, i, username, id);
    UpsertRow(cfg, s, i, username, role, id);
  }

  predicate RowKept(u: User, u': User, bumped: bool) {
    u'.hasPassword == u.hasPassword && u'.disabled == u.disabled && u'.version == u.version + (if bumped then 1 else 0)
  }

  lemma UpsertRow(cfg: Config, s: State, i: Identity, username: string, role: Role, id: UserId)
    requires Upsert(cfg, s, i, username, role).Some? && id in s.users && id < s.nextUser
    ensures var u, users, owner := s.users[id], Upsert(cfg, s, i, username, role).value.0.users, IdentityOwner(s, i);
            id in users &&
            var claimed := UpsertTarget(s, i, username) == Some(id) && !(owner.Some? && s.users[owner.value].linked);
            users[id] == if owner == Some(id) && u.linked then RefreshedLink(u, role)
                         else if claimed then RefreshedSso(u, StoredUsername(cfg, s, i, username), role, i)
                         else u
  {
  }

  lemma TargetWithPassword(s: State, i: Identity, username: string, id: UserId)
    requires id in s.users && s.users[id].hasPassword
    ensures UpsertTarget(s, i, username) == Some(id) <==> IdentityOwner(s, i) == Some(id)
  {
  }

  lemma LogoutKeepsLocalSessionIff(s: State, l: LogoutToken, t: Token)
    requires Accepts(s, t) && t.authMethod != BySso
    ensures Accepts(ApplyLogout(s, l), t) <==> !EndsLocalSessions(s, BackchannelLogout(l), t.userId)
  {
    LogoutUsers(s, l);
    LocalRowDecides(s, ApplyLogout(s, l), t);
  }

  lemma LogoutUsers(s: State, l: LogoutToken)
    ensures ApplyLogout(s, l).users ==
      if LogoutTakesEffect(s, l) && l.sid.None? && l.subject.Some?
      then RevokedRows(s.users, Identity(l.issuer, l.subject.value))
      else s.users
  {
  }

  /** Whether a local session lasts is up to its account's row. */
  lemma LocalRowDecides(s: State, s': State, t: Token)
    requires Accepts(s, t) && t.authMethod != BySso
    requires s'.now == s.now && s'.revokedSessions == s.revokedSessions && s.issued <= s'.issued && t.userId in s'.users
    ensures var u, u' := s.users[t.userId], s'.users[t.userId];
            u'.provider == u.provider && u'.hasPassword == u.hasPassword && u'.disabled == u.disabled ==>
              (Accepts(s', t) <==> u'.version == u.version)
  {
  }

  ghost predicate OnlyProviderAndTime(events: seq<Event>) {
    forall i :: 0 <= i < |events| ==> IsProviderEvent(events[i]) || events[i].Tick?
  }

  /** Whole-run form: until it expires, only local steps can end a local session. */
  lemma {:induction false} ProviderRunKeepsLocalSession(cfg: Config, s: State, events: seq<Event>, t: Token)
    requires Inv(s) && OnlyProviderAndTime(events) && Accepts(s, t) && t.authMethod != BySso
    requires Run(cfg, s, events).now <= t.expires
    ensures var s' := Run(cfg, s, events);
            && Accepts(s', t)
            && s'.users[t.userId].username == s.users[t.userId].username
            && SessionRole(s', t) == SessionRole(s, t)
    decreases |events|
  {
    if events != [] {
      var s1 := Next(cfg, s, events[0]);
      StepKeepsInv(cfg, s, events[0]);
      RunClock(cfg, s1, events[1..]);
      if IsProviderEvent(events[0]) {
        ProviderStepKeepsLocalSession(cfg, s, events[0], t);
      }
      ProviderRunKeepsLocalSession(cfg, s1, events[1..], t);
    }
  }

  lemma {:induction false} RunClock(cfg: Config, s: State, events: seq<Event>)
    requires Inv(s)
    ensures s.now <= Run(cfg, s, events).now && s.issued <= Run(cfg, s, events).issued
    decreases |events|
  {
    if events != [] {
      StepKeepsInv(cfg, s, events[0]);
      StepIssuesOne(cfg, s, events[0]);
      RunClock(cfg, Next(cfg, s, events[0]), events[1..]);
    }
  }

  // ----- sessions end for good -----

  /** The account has moved past this token. */
  predicate Outdated(s: State, t: Token) {
    || t.userId !in s.users
    || var u := s.users[t.userId];
       || t.version < u.version
       || (IsLinkedSso(t, u) && (t.ssoVersion.None? || t.ssoVersion.value < u.ssoVersion))
       || (t.authMethod == BySso && t.sid.None? && u.identity.Some? &&
           t.logoutVersion < LogoutVersion(s, u.identity.value))
  }

  /** A row revokes the token's session for longer than the token lives. */
  predicate RevokedForLife(s: State, t: Token) {
    || (t.session in s.revokedSessions && s.revokedSessions[t.session] > t.expires)
    || (t.authMethod == BySso && t.sid.Some? && t.userId in s.users && s.users[t.userId].identity.Some?
        && var key := (s.users[t.userId].identity.value.issuer, t.sid.value);
           key in s.revokedSids && s.revokedSids[key] > t.expires)
  }

  predicate Gone(s: State, t: Token) {
    Outdated(s, t) || Expired(s, t) || RevokedForLife(s, t)
  }

  lemma GoneIsRejected(s: State, t: Token)
    requires Gone(s, t)
    ensures !Accepts(s, t)
  {
  }

  lemma OutdatedStays(cfg: Config, s: State, e: Event, t: Token)
    requires Inv(s) && t in s.issued && Outdated(s, t)
    ensures Outdated(Next(cfg, s, e), t)
  {
    assert TokenOk(s, t);
    StepIsGood(cfg, s, e);
    StepKeepsRows(cfg, s, e);
  }

  lemma RevokedSessionStays(cfg: Config, s: State, e: Event, t: Token)
    requires Inv(s) && t in s.issued && t.session in s.revokedSessions && s.revokedSessions[t.session] > t.expires
    ensures Expired(Next(cfg, s, e), t) || RevokedForLife(Next(cfg, s, e), t)
  {
    RevokedSessionRows(cfg, s, e);
    if e.Logout? && Enabled(cfg, s, e) {
      assert SameSession(t, e.token);
    }
  }

  /** The only writer of sid rows: an effective provider logout that names one. */
  lemma SidRows(cfg: Config, s: State, e: Event)
    ensures Next(cfg, s, e).revokedSids ==
      (if Enabled(cfg, s, e) && e.BackchannelLogout? && LogoutTakesEffect(s, e.logout) && e.logout.sid.Some?
       then Pruned(s.revokedSids, s.now)[(e.logout.issuer, e.logout.sid.value) := s.now + OIDC_SESSION_LIFETIME]
       else s.revokedSids)
  {
    if !Enabled(cfg, s, e) || !e.BackchannelLogout? {
      StepFrame(cfg, s, e);
    }
  }

  lemma SidRowsStay(cfg: Config, s: State, e: Event, key: (string, string))
    requires RowsOk(s) && key in s.revokedSids
    ensures var s' := Next(cfg, s, e);
            s.revokedSids[key] <= s.now || (key in s'.revokedSids && s'.revokedSids[key] >= s.revokedSids[key])
  {
    SidRows(cfg, s, e);
  }

  lemma RevokedSidStays(cfg: Config, s: State, e: Event, t: Token)
    requires Inv(s) && t in s.issued && RevokedForLife(s, t)
    requires !(t.session in s.revokedSessions && s.revokedSessions[t.session] > t.expires)
    ensures Gone(Next(cfg, s, e), t)
  {
    var s' := Next(cfg, s, e);
    assert TokenOk(s, t);
    StepIsGood(cfg, s, e);
    StepIssuesOne(cfg, s, e);
    SidRowsStay(cfg, s, e, (s.users[t.userId].identity.value.issuer, t.sid.value));
  }

  /** Closed under every step. */
  lemma GoneStaysGone(cfg: Config, s: State, e: Event, t: Token)
    requires Inv(s) && t in s.issued && Gone(s, t)
    ensures Gone(Next(cfg, s, e), t)
  {
    if Outdated(s, t) {
      OutdatedStays(cfg, s, e, t);
    } else if Expired(s, t) {
      StepIssuesOne(cfg, s, e);
    } else if t.session in s.revokedSessions && s.revokedSessions[t.session] > t.expires {
      RevokedSessionStays(cfg, s, e, t);
    } else {
      RevokedSidStays(cfg, s, e, t);
    }
  }

  lemma {:induction false} GoneForever(cfg: Config, s: State, events: seq<Event>, t: Token)
    requires Inv(s) && t in s.issued && Gone(s, t)
    ensures !Accepts(Run(cfg, s, events), t)
    decreases |events|
  {
    if events == [] {
      GoneIsRejected(s, t);
    } else {
      StepKeepsInv(cfg, s, events[0]);
      StepIssuesOne(cfg, s, events[0]);
      GoneStaysGone(cfg, s, events[0], t);
      GoneForever(cfg, Next(cfg, s, events[0]), events[1..], t);
    }
  }

  /** The two cases in which a revocation row expires in the token's very last second: a sign-out
      of a session that lives its full 30 days, and a provider logout in the second in which the
      token was issued. */
  ghost predicate LastSecondCase(s: State, e: Event, t: Token) {
    || (e.Logout? && e.token.session == t.session && t.expires == t.authenticatedAt + SESSION_LIFETIME)
    || (e.BackchannelLogout? && e.logout.sid.Some? && t.sid == e.logout.sid &&
        t.expires == s.now + OIDC_SESSION_LIFETIME)
  }

  // ----- what an ended session can still do -----

  predicate SidRowHolds(s: State, t: Token, until: int) {
    && t.authMethod == BySso && t.sid.Some? && t.userId in s.users && s.users[t.userId].identity.Some?
    && var key := (s.users[t.userId].identity.value.issuer, t.sid.value);
       key in s.revokedSids && s.revokedSids[key] >= until
  }

  predicate SessionRowHolds(s: State, t: Token, until: int) {
    t.session in s.revokedSessions && s.revokedSessions[t.session] >= until
  }

  /** The token is rejected at every time before its last second, whatever happens. */
  predicate Spent(s: State, t: Token) {
    Outdated(s, t) || s.now >= t.expires || SessionRowHolds(s, t, t.expires) || SidRowHolds(s, t, t.expires)
  }

  lemma SpentIsRejected(s: State, t: Token)
    requires Spent(s, t) && Accepts(s, t)
    ensures s.now == t.expires
  {
  }

  lemma SidRowHoldsStays(cfg: Config, s: State, e: Event, t: Token)
    requires Inv(s) && t in s.issued && SidRowHolds(s, t, t.expires)
    ensures Spent(Next(cfg, s, e), t)
  {
    assert TokenOk(s, t);
    StepIsGood(cfg, s, e);
    StepIssuesOne(cfg, s, e);
    SidRowsStay(cfg, s, e, (s.users[t.userId].identity.value.issuer, t.sid.value));
  }

  lemma SessionRowHoldsStays(cfg: Config, s: State, e: Event, session: nat, authenticatedAt: int)
    requires Inv(s)
    requires forall t :: t in s.issued && t.session == session ==> t.authenticatedAt == authenticatedAt
    requires session in s.revokedSessions && s.revokedSessions[session] >= authenticatedAt + SESSION_LIFETIME
    ensures var s' := Next(cfg, s, e);
            || s'.now >= authenticatedAt + SESSION_LIFETIME
            || (session in s'.revokedSessions && s'.revokedSessions[session] >= authenticatedAt + SESSION_LIFETIME)
  {
    RevokedSessionRows(cfg, s, e);
    StepIssuesOne(cfg, s, e);
  }

  lemma SpentStaysSpent(cfg: Config, s: State, e: Event, t: Token)
    requires Inv(s) && t in s.issued && Spent(s, t)
    ensures Spent(Next(cfg, s, e), t)
  {
    assert TokenOk(s, t);
    StepIssuesOne(cfg, s, e);
    if Outdated(s, t) {
      OutdatedStays(cfg, s, e, t);
    } else if SessionRowHolds(s, t, t.expires) {
      assert forall a :: a in s.issued && a.session == t.session ==> SameSession(a, t);
      SessionRowHoldsStays(cfg, s, e, t.session, t.authenticatedAt);
    } else if SidRowHolds(s, t, t.expires) {
      SidRowHoldsStays(cfg, s, e, t);
    }
  }

  lemma {:induction false} SpentForever(cfg: Config, s: State, events: seq<Event>, t: Token)
    requires Inv(s) && t in s.issued && Spent(s, t)
    ensures Accepts(Run(cfg, s, events), t) ==> Run(cfg, s, events).now == t.expires
    decreases |events|
  {
    if events == [] {
      if Accepts(s, t) {
        SpentIsRejected(s, t);
      }
    } else {
      StepKeepsInv(cfg, s, events[0]);
      StepIssuesOne(cfg, s, events[0]);
      SpentStaysSpent(cfg, s, events[0], t);
      SpentForever(cfg, Next(cfg, s, events[0]), events[1..], t);
    }
  }

  /** Whichever step takes away an accepted session takes it away for good, outside the last-second
      cases. */
  lemma LossIsForGood(cfg: Config, s: State, e: Event, t: Token)
    requires Inv(s) && Accepts(s, t) && !Accepts(Next(cfg, s, e), t)
    ensures Gone(Next(cfg, s, e), t) || LastSecondCase(s, e, t)
  {
    var s' := Next(cfg, s, e);
    assert TokenOk(s, t);
    StepIsGood(cfg, s, e);
    StepIssuesOne(cfg, s, e);
    StepKeepsRows(cfg, s, e);
    StepKeepsInv(cfg, s, e);
    assert TokenOk(s', t);
    RevokedSessionRows(cfg, s, e);
    if SessionRevoked(s', t.session) {
      LoggedOutSession(cfg, s, e, t);
    } else if !Expired(s', t) && !Outdated(s', t) {
      LoggedOutSid(cfg, s, e, t);
    }
  }

  lemma LoggedOutSession(cfg: Config, s: State, e: Event, t: Token)
    requires Inv(s) && Accepts(s, t) && SessionRevoked(Next(cfg, s, e), t.session)
    ensures Gone(Next(cfg, s, e), t) || LastSecondCase(s, e, t)
  {
    var s' := Next(cfg, s, e);
    RevokedSessionRows(cfg, s, e);
    assert TokenOk(s, t);
    if e.Logout? && Enabled(cfg, s, e) {
      if e.token.session == t.session {
        assert SameSession(t, e.token);
      }
    } else {
      StepIssuesOne(cfg, s, e);
    }
  }

  /** If the account's row did not reject the token, a row for its sid did, and only a provider
      logout of that session adds one. */
  lemma LoggedOutSid(cfg: Config, s: State, e: Event, t: Token)
    requires Inv(s) && Accepts(s, t) && TokenOk(Next(cfg, s, e), t)
    requires !Outdated(Next(cfg, s, e), t) && !RowAccepts(Next(cfg, s, e), t)
    ensures RevokedForLife(Next(cfg, s, e), t) || LastSecondCase(s, e, t)
    ensures SidRowHolds(Next(cfg, s, e), t, t.expires)
  {
    var s' := Next(cfg, s, e);
    assert TokenOk(s, t);
    StepIsGood(cfg, s, e);
    StepKeepsRows(cfg, s, e);
    SidRows(cfg, s, e);
    NotOutdatedRejects(s, s', t);
    StepFrame(cfg, s, e);
  }

  lemma NotOutdatedRejects(s: State, s': State, t: Token)
    requires Accepts(s, t) && TokenOk(s, t) && TokenOk(s', t) && t.userId in s'.users
    requires UserAdvances(s.users[t.userId], s'.users[t.userId]) && LogoutVersionsAdvance(s, s')
    requires !Outdated(s', t) && !RowAccepts(s', t)
    ensures var u, u' := s.users[t.userId], s'.users[t.userId];
            && u'.identity == u.identity && t.authMethod == BySso && t.sid.Some? && u.identity.Some?
            && SidRevoked(s', u.identity.value.issuer, t.sid.value) &&
                !SidRevoked(s, u.identity.value.issuer, t.sid.value)
  {
  }

  lemma RowRejects(s: State, s': State, t: Token)
    requires Accepts(s, t) && !Accepts(s', t) && t in s'.issued
    ensures SessionRevoked(s', t.session) || Expired(s', t) || !RowAccepts(s', t)
  {
  }

  lemma LossSpends(cfg: Config, s: State, e: Event, t: Token)
    requires Inv(s) && Accepts(s, t) && !Accepts(Next(cfg, s, e), t)
    ensures Spent(Next(cfg, s, e), t)
  {
    var s' := Next(cfg, s, e);
    StepKeepsInv(cfg, s, e);
    StepIssuesOne(cfg, s, e);
    assert TokenOk(s', t);
    RowRejects(s, s', t);
    if SessionRevoked(s', t.session) {
      assert SessionRowHolds(s', t, t.expires);
    } else if Expired(s', t) {
      ExpiredIsSpent(s, s', t);
    } else if !Outdated(s', t) {
      LoggedOutSid(cfg, s, e, t);
    }
  }

  lemma ExpiredIsSpent(s: State, s': State, t: Token)
    requires TokenOk(s', t) && !Expired(s, t) && Expired(s', t)
    ensures s'.now >= t.expires
  {
  }

  /** Main theorem on endings: once any step has ended an accepted session, no later reachable state
      accepts that token, after re-enabling, unlinking, relinking or cookie refreshes included. The one
      exception is the token's very last second, after the two kinds of logout whose rows end there. */
  lemma EndedSessionNeverReturns(cfg: Config, s: State, e: Event, events: seq<Event>, t: Token)
    requires Inv(s) && Accepts(s, t) && !Accepts(Next(cfg, s, e), t)
    ensures var s' := Run(cfg, Next(cfg, s, e), events);
            Accepts(s', t) ==> s'.now == t.expires && LastSecondCase(s, e, t)
  {
    LossIsForGood(cfg, s, e, t);
    StepKeepsInv(cfg, s, e);
    StepIssuesOne(cfg, s, e);
    LossSpends(cfg, s, e, t);
    SpentForever(cfg, Next(cfg, s, e), events, t);
    if Gone(Next(cfg, s, e), t) {
      GoneForever(cfg, Next(cfg, s, e), events, t);
    }
  }
}
