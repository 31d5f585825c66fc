/** What every reachable set of accounts and tokens satisfies, and in which direction every step
    moves the rows. */
module AccountInvariants {
  import opened Wrappers
  import opened Accounts
  import opened AccountSteps

  // ----- accounts -----

  /** An account is linked exactly when it has both a password and an SSO identity, and an identity
      makes the account an SSO one. */
  predicate Coherent(u: User) {
    && (u.linked <==> u.hasPassword && u.identity.Some?)
    && (u.identity.Some? ==> u.provider == OidcProvider)
  }

  ghost predicate AccountsCoherent(s: State) {
    forall id :: id in s.users ==> id < s.nextUser && Coherent(s.users[id])
  }

  /** Whoever proved to know a credential has a password: passwords stay, and ids are not used twice. */
  ghost predicate ChangesOk(s: State) {
    forall change <- s.checkedChanges ::
      change.0 < s.nextUser && (change.0 in s.users ==> s.users[change.0].hasPassword)
  }

  /** Versions never go back, a password never disappears, and losing a link, an identity or the
      right to sign in costs a version. */
  predicate UserAdvances(u: User, u': User) {
    && u.version <= u'.version && u.ssoVersion <= u'.ssoVersion
    && (u.hasPassword ==> u'.hasPassword)
    && (u.linked && !u'.linked ==> u.version < u'.version)
    && (u.identity.Some? && u'.identity != u.identity ==> u.version < u'.version)
    && (u.provider == OidcProvider && u'.provider != OidcProvider ==> u.version < u'.version)
    && (u'.disabled && !u.disabled ==> u.version < u'.version)
    && (IsOidcOnly(u') ==> IsOidcOnly(u))
  }

  ghost predicate UsersAdvance(s: State, s': State) {
    && s.nextUser <= s'.nextUser
    && (forall id :: id in s'.users ==> id in s.users || id >= s.nextUser)
    && (forall id :: id in s'.users && id in s.users ==> UserAdvances(s.users[id], s'.users[id]))
  }

  /** A step that keeps the accounts coherent and only moves their rows forward. */
  ghost predicate GoodMove(s: State, s': State) {
    AccountsCoherent(s') && UsersAdvance(s, s')
  }

  lemma SetUserIsGood(s: State, id: UserId, u: User)
    requires AccountsCoherent(s) && id in s.users && Coherent(u) && UserAdvances(s.users[id], u)
    ensures GoodMove(s, SetUser(s, id, u))
  {
  }

  lemma AddUserIsGood(s: State, u: User)
    requires AccountsCoherent(s) && Coherent(u)
    ensures GoodMove(s, AddUser(s, u))
  {
  }

  lemma RemoveUserIsGood(s: State, id: UserId)
    requires AccountsCoherent(s)
    ensures GoodMove(s, RemoveUser(s, id))
  {
  }

  lemma SameUsersIsGood(s: State, s': State)
    requires AccountsCoherent(s) && s'.users == s.users && s'.nextUser == s.nextUser
    ensures GoodMove(s, s')
  {
  }

  lemma SameUsersAfterGood(s: State, s1: State, s2: State)
    requires GoodMove(s, s1) && s2.users == s1.users && s2.nextUser == s1.nextUser
    ensures GoodMove(s, s2)
  {
  }

  lemma RevokeIdentityIsGood(s: State, i: Identity)
    requires AccountsCoherent(s)
    ensures GoodMove(s, RevokeIdentity(s, i))
  {
  }

  lemma DenyIsGood(s: State, i: Identity)
    requires AccountsCoherent(s)
    ensures GoodMove(s, Deny(s, i))
  {
  }

  lemma LinkIsGood(s: State, id: UserId, i: Identity, role: Role, verified: bool)
    requires AccountsCoherent(s) && Link(s, id, i, role, verified).Some?
    ensures GoodMove(s, Link(s, id, i, role, verified).value)
    ensures id in Link(s, id, i, role, verified).value.users
  {
    var owner := IdentityOwner(s, i);
    var u := Linked(s.users[id], i, role, verified);
    if owner.Some? && owner.value != id {
      RemoveUserIsGood(s, owner.value);
      SetUserIsGood(RemoveUser(s, owner.value), id, u);
    } else {
      SetUserIsGood(s, id, u);
    }
  }

  lemma UpsertIsGood(cfg: Config, s: State, i: Identity, username: string, role: Role)
    requires AccountsCoherent(s) && Upsert(cfg, s, i, username, role).Some?
    ensures GoodMove(s, Upsert(cfg, s, i, username, role).value.0)
    ensures Upsert(cfg, s, i, username, role).value.1 in Upsert(cfg, s, i, username, role).value.0.users
  {
    var owner, target := IdentityOwner(s, i), UpsertTarget(s, i, username);
    var stored := StoredUsername(cfg, s, i, username);
    if owner.Some? && s.users[owner.value].linked {
      SetUserIsGood(s, owner.value, RefreshedLink(s.users[owner.value], role));
    } else if target.None? {
      AddUserIsGood(s, SsoAccount(stored, role, i));
    } else {
      SetUserIsGood(s, target.value, RefreshedSso(s.users[target.value], stored, role, i));
    }
  }

  lemma SignInIsGood(s: State, s1: State, id: UserId, authMethod: AuthMethod, sid: Option<string>)
    requires GoodMove(s, s1) && id in s1.users
    ensures GoodMove(s, SignIn(s1, id, authMethod, sid))
  {
    SameUsersAfterGood(s, s1, SignIn(s1, id, authMethod, sid));
  }

  lemma SsoSignInIsGood(cfg: Config, s: State, e: Event)
    requires AccountsCoherent(s) && e.SsoSignIn? && Enabled(cfg, s, e)
    ensures GoodMove(s, Effect(cfg, s, e))
  {
    var linked := AutoLink(s, e.identity, e.username, e.preferred, e.role);
    if linked.Some? {
      LinkIsGood(s, linked.value.1, e.identity, e.role, false);
      SignInIsGood(s, linked.value.0, linked.value.1, BySso, e.sid);
    } else {
      UpsertIsGood(cfg, s, e.identity, e.username, e.role);
      var upserted := Upsert(cfg, s, e.identity, e.username, e.role).value;
      SignInIsGood(s, upserted.0, upserted.1, BySso, e.sid);
    }
  }

  lemma BackchannelLogoutIsGood(cfg: Config, s: State, l: LogoutToken)
    requires AccountsCoherent(s)
    ensures GoodMove(s, ApplyLogout(s, l))
  {
    if LogoutTakesEffect(s, l) {
      var s1 := s.(processedLogouts := Pruned(s.processedLogouts, s.now)[(l.issuer, l.tokenId) := MarkerExpiry(l)]);
      SameUsersIsGood(s, s1);
      if l.sid.None? && l.subject.Some? {
        RevokeIdentityIsGood(s1, Identity(l.issuer, l.subject.value));
      }
    }
  }

  lemma CredentialChangeIsGood(cfg: Config, s: State, e: Event)
    requires AccountsCoherent(s) && ChangesOk(s) && e.ChangeCredential? && Enabled(cfg, s, e)
    ensures GoodMove(s, Effect(cfg, s, e))
  {
    var u := WithNewCredential(s.users[e.id], e.credential);
    SetUserIsGood(s, e.id, u);
    SignInIsGood(s, SetUser(s, e.id, u), e.id, ByPassword, None);
  }

  lemma LinkChangeIsGood(cfg: Config, s: State, e: Event)
    requires AccountsCoherent(s) && (e.ConfirmLink? || e.SelfUnlink?) && Enabled(cfg, s, e)
    ensures GoodMove(s, Effect(cfg, s, e))
  {
    var t, id := e.token, e.token.userId;
    if e.ConfirmLink? {
      LinkIsGood(s, id, e.identity, e.role, true);
      SignInIsGood(s, Link(s, id, e.identity, e.role, true).value, id, t.authMethod, None);
    } else {
      UnlinkIsGood(s, id);
      SignInIsGood(s, SetUser(s, id, Unlinked(s.users[id])), id, t.authMethod, None);
    }
  }

  lemma ResetPasswordIsGood(s: State, id: UserId, changeRequired: bool)
    requires AccountsCoherent(s) && id in s.users && !IsOidcOnly(s.users[id])
    ensures GoodMove(s, SetUser(s, id, Bumped(s.users[id]).(hasPassword := true, changeRequired := changeRequired)))
  {
    SetUserIsGood(s, id, Bumped(s.users[id]).(hasPassword := true, changeRequired := changeRequired));
  }

  lemma ResetMfaIsGood(s: State, id: UserId)
    requires AccountsCoherent(s) && id in s.users
    ensures GoodMove(s, SetUser(RemovePasskeysOf(s, id), id, Bumped(s.users[id])))
  {
    SetUserIsGood(s, id, Bumped(s.users[id]));
    SameUsersAfterGood(s, SetUser(s, id, Bumped(s.users[id])),
      SetUser(RemovePasskeysOf(s, id), id, Bumped(s.users[id])));
  }

  lemma UnlinkIsGood(s: State, id: UserId)
    requires AccountsCoherent(s) && id in s.users && s.users[id].linked
    ensures GoodMove(s, SetUser(s, id, Unlinked(s.users[id])))
  {
    SetUserIsGood(s, id, Unlinked(s.users[id]));
  }

  lemma PatchIsGood(s: State, id: UserId, newRole: Option<Role>, newDisabled: Option<bool>)
    requires AccountsCoherent(s) && id in s.users
    ensures GoodMove(s, SetUser(s, id, Patched(s.users[id], newRole, newDisabled)))
  {
    SetUserIsGood(s, id, Patched(s.users[id], newRole, newDisabled));
  }

  lemma AccountEditIsGood(cfg: Config, s: State, e: Event)
    requires AccountsCoherent(s) && Enabled(cfg, s, e) && (e.CreateUser? || e.PatchUser? || e.DeleteUser?)
    ensures GoodMove(s, Effect(cfg, s, e))
  {
    match e
    case CreateUser(_, username, role, changeRequired) =>
      AddUserIsGood(s, LocalAccount(s, username, role, changeRequired));
    case PatchUser(_, id, newRole, newDisabled) => PatchIsGood(s, id, newRole, newDisabled);
    case DeleteUser(_, id) => RemoveUserIsGood(s, id);
  }

  lemma CredentialResetIsGood(cfg: Config, s: State, e: Event)
    requires AccountsCoherent(s) && Enabled(cfg, s, e) && (e.ResetPassword? || e.ResetMfa? || e.AdminUnlink?)
    ensures GoodMove(s, Effect(cfg, s, e))
  {
    match e
    case ResetPassword(_, id, changeRequired) => ResetPasswordIsGood(s, id, changeRequired);
    case ResetMfa(_, id) => ResetMfaIsGood(s, id);
    case AdminUnlink(_, id) => UnlinkIsGood(s, id);
  }

  lemma SetupIsGood(cfg: Config, s: State, e: Event)
    requires AccountsCoherent(s) && e.Setup? && Enabled(cfg, s, e)
    ensures GoodMove(s, Effect(cfg, s, e))
  {
    var u := LocalAccount(s, e.username, Admin, false);
    AddUserIsGood(s, u);
    SignInIsGood(s, AddUser(s, u), s.nextUser, ByPassword, None);
  }

  /** Steps that leave the accounts themselves alone. */
  predicate IsQuiet(e: Event) {
    || e.Tick? || e.PasswordLogin? || e.PasskeyLogin? || e.Logout? || e.RefreshCookie? || e.RegisterPasskey?
    || e.DeletePasskey? || e.PutSettings? || e.CheckChange? || e.VerifyLogout?
  }

  lemma QuietKeepsUsers(cfg: Config, s: State, e: Event)
    requires IsQuiet(e) && Enabled(cfg, s, e)
    ensures Effect(cfg, s, e).users == s.users && Effect(cfg, s, e).nextUser == s.nextUser
  {
  }

  /** The linkage invariant is inductive, and no step moves an account's row back. */
  lemma StepIsGood(cfg: Config, s: State, e: Event)
    requires AccountsCoherent(s) && ChangesOk(s)
    ensures GoodMove(s, Next(cfg, s, e))
  {
    if !Enabled(cfg, s, e) {
      SameUsersIsGood(s, s);
    } else if IsQuiet(e) {
      QuietKeepsUsers(cfg, s, e);
      SameUsersIsGood(s, Effect(cfg, s, e));
    } else if e.ChangeCredential? {
      CredentialChangeIsGood(cfg, s, e);
    } else if e.ConfirmLink? || e.SelfUnlink? {
      LinkChangeIsGood(cfg, s, e);
    } else if e.SsoSignIn? {
      SsoSignInIsGood(cfg, s, e);
    } else if e.SsoDenied? {
      DenyIsGood(s, e.identity);
    } else if e.BackchannelLogout? {
      BackchannelLogoutIsGood(cfg, s, e.logout);
    } else if e.ResetPassword? || e.ResetMfa? || e.AdminUnlink? {
      CredentialResetIsGood(cfg, s, e);
    } else if e.Setup? {
      SetupIsGood(cfg, s, e);
    } else {
      AccountEditIsGood(cfg, s, e);
    }
  }

  // ----- tokens -----

  function Lifetime(m: AuthMethod): int { if m == BySso then OIDC_SESSION_LIFETIME else SESSION_LIFETIME }

  /** A signed token never runs ahead of its account's row, and its lifetime is bounded. */
  ghost predicate TokenOk(s: State, t: Token) {
    && t.userId < s.nextUser && t.session < s.nextSession
    && t.authenticatedAt <= t.issuedAt <= s.now
    && t.expires <= t.authenticatedAt + Lifetime(t.authMethod)
    && (t.userId in s.users ==>
          var u := s.users[t.userId];
          && t.version <= u.version
          && (t.ssoVersion.Some? ==> t.ssoVersion.value <= u.ssoVersion)
          && (t.authMethod == ByPassword ==> u.hasPassword)
          && (t.authMethod == BySso && t.version == u.version ==> u.identity.Some?))
  }

  /** All tokens of one session share its account, method and sign-in time. */
  ghost predicate SameSession(a: Token, b: Token) {
    a.session == b.session ==>
      a.authenticatedAt == b.authenticatedAt && a.userId == b.userId && a.authMethod == b.authMethod
  }

  ghost predicate TokensOk(s: State) {
    && (forall t :: t in s.issued ==> TokenOk(s, t))
    && (forall a, b :: a in s.issued && b in s.issued ==> SameSession(a, b))
  }

  /** A token a step adds: signed for the account as the step leaves it, for a new session or for
      one that is being refreshed. */
  ghost predicate FreshlySigned(s: State, s': State, t: Token) {
    && t.userId in s'.users && t.version == s'.users[t.userId].version
    && (t.ssoVersion.Some? ==> t.ssoVersion.value == s'.users[t.userId].ssoVersion)
    && (t.authMethod == ByPassword ==> s'.users[t.userId].hasPassword)
    && (t.authMethod == BySso ==> s'.users[t.userId].identity.Some?)
    && t.authenticatedAt <= t.issuedAt == s'.now
    && t.expires <= t.authenticatedAt + Lifetime(t.authMethod)
    && (t.session == s.nextSession < s'.nextSession
        || exists r :: r in s.issued && r.session == t.session && SameSession(r, t))
  }

  ghost predicate IssuesOne(s: State, s': State) {
    && s.now <= s'.now && s.issued <= s'.issued && s.nextSession <= s'.nextSession
    && (forall t :: t in s'.issued ==> t in s.issued || FreshlySigned(s, s', t))
    && (forall a, b :: a in s'.issued && a !in s.issued && b in s'.issued && b !in s.issued ==> a == b)
  }

  lemma SignInIssuesOne(s: State, s1: State, id: UserId, authMethod: AuthMethod, sid: Option<string>)
    requires s1.issued == s.issued && s1.now == s.now && s1.nextSession == s.nextSession && id in s1.users
    requires authMethod == ByPassword ==> s1.users[id].hasPassword
    requires authMethod == BySso ==> s1.users[id].identity.Some?
    ensures IssuesOne(s, SignIn(s1, id, authMethod, sid))
  {
    var s' := SignIn(s1, id, authMethod, sid);
    assert FreshlySigned(s, s', NewToken(s1, id, authMethod, s1.now, sid, s1.nextSession));
  }

  lemma NoNewTokens(s: State, s': State)
    requires s'.issued == s.issued && s.now <= s'.now && s'.nextSession == s.nextSession
    ensures IssuesOne(s, s')
  {
  }

  lemma OwnCredentialIssuesOne(cfg: Config, s: State, e: Event)
    requires AccountsCoherent(s) && ChangesOk(s) && TokensOk(s) && Enabled(cfg, s, e)
    requires e.ChangeCredential? || e.ConfirmLink? || e.SelfUnlink?
    ensures IssuesOne(s, Effect(cfg, s, e))
  {
    match e
    case ChangeCredential(id, c) =>
      SignInIssuesOne(s, SetUser(s, id, WithNewCredential(s.users[id], c)), id, ByPassword, None);
    case ConfirmLink(t, i, role, _) =>
      SignInIssuesOne(s, Link(s, t.userId, i, role, true).value, t.userId, t.authMethod, None);
    case SelfUnlink(t) =>
      SignInIssuesOne(s, SetUser(s, t.userId, Unlinked(s.users[t.userId])), t.userId, t.authMethod, None);
  }

  lemma SignInEventIssuesOne(cfg: Config, s: State, e: Event)
    requires AccountsCoherent(s) && TokensOk(s) && Enabled(cfg, s, e)
    requires e.Setup? || e.PasswordLogin? || e.PasskeyLogin? || e.SsoSignIn?
    ensures IssuesOne(s, Effect(cfg, s, e))
  {
    match e
    case Setup(username) =>
      SignInIssuesOne(s, AddUser(s, LocalAccount(s, username, Admin, false)), s.nextUser, ByPassword, None);
    case PasswordLogin(id) => SignInIssuesOne(s, s, id, ByPassword, None);
    case PasskeyLogin(c) => SignInIssuesOne(s, s, s.passkeys[c], ByPasskey, None);
    case SsoSignIn(i, username, preferred, role, sid) =>
      var signed := SsoAccountFor(cfg, s, i, username, preferred, role).value;
      SignInIssuesOne(s, signed.0, signed.1, BySso, sid);
  }

  lemma RefreshIssuesOne(cfg: Config, s: State, e: Event)
    requires TokensOk(s) && e.RefreshCookie? && Enabled(cfg, s, e)
    ensures IssuesOne(s, Effect(cfg, s, e))
  {
    var t := e.token;
    var signed := NewToken(s, t.userId, t.authMethod, t.authenticatedAt, None, t.session);
    assert TokenOk(s, t);
    assert t in s.issued && SameSession(t, signed);
    assert FreshlySigned(s, Effect(cfg, s, e), signed);
  }

  lemma NobodySignsIn(cfg: Config, s: State, e: Event)
    requires Enabled(cfg, s, e)
    requires IsProviderEvent(e) ==> !e.SsoSignIn?
    requires !e.ChangeCredential? && !e.ConfirmLink? && !e.SelfUnlink?
    requires !e.Setup? && !e.PasswordLogin? && !e.PasskeyLogin? && !e.RefreshCookie?
    ensures var s' := Effect(cfg, s, e); s'.issued == s.issued && s.now <= s'.now && s'.nextSession == s.nextSession
  {
  }

  lemma StepIssuesOne(cfg: Config, s: State, e: Event)
    requires AccountsCoherent(s) && ChangesOk(s) && TokensOk(s)
    ensures IssuesOne(s, Next(cfg, s, e))
  {
    if Enabled(cfg, s, e) {
      if e.ChangeCredential? || e.ConfirmLink? || e.SelfUnlink? {
        OwnCredentialIssuesOne(cfg, s, e);
      } else if e.Setup? || e.PasswordLogin? || e.PasskeyLogin? || e.SsoSignIn? {
        SignInEventIssuesOne(cfg, s, e);
      } else if e.RefreshCookie? {
        RefreshIssuesOne(cfg, s, e);
      } else {
        NobodySignsIn(cfg, s, e);
        NoNewTokens(s, Effect(cfg, s, e));
      }
    }
  }

  lemma TokensStayOk(s: State, s': State)
    requires AccountsCoherent(s) && TokensOk(s) && GoodMove(s, s') && IssuesOne(s, s')
    ensures TokensOk(s')
  {
    forall t | t in s'.issued ensures TokenOk(s', t) {
      if t in s.issued { assert TokenOk(s, t); }
      else if t.session != s.nextSession {
        var r :| r in s.issued && r.session == t.session && SameSession(r, t);
        assert TokenOk(s, r);
      }
    }
    forall a, b | a in s'.issued && b in s'.issued ensures SameSession(a, b) {
      if a in s.issued && b !in s.issued { SessionsMatch(s, s', a, b); }
      if b in s.issued && a !in s.issued { SessionsMatch(s, s', b, a); }
    }
  }

  lemma SessionsMatch(s: State, s': State, kept: Token, signed: Token)
    requires TokensOk(s) && kept in s.issued && FreshlySigned(s, s', signed)
    ensures SameSession(kept, signed)
  {
    assert TokenOk(s, kept);
    if signed.session != s.nextSession {
      var r :| r in s.issued && r.session == signed.session && SameSession(r, signed);
      assert SameSession(kept, r);
    }
  }

  // ----- the other rows -----

  ghost predicate RowsOk(s: State) {
    && (forall k :: k in s.revokedSids ==> s.revokedSids[k] <= s.now + OIDC_SESSION_LIFETIME)
    && (forall i :: i in s.logoutVersions ==> s.logoutVersions[i] >= INITIAL_LOGOUT_VERSION)
  }

  /** A revoked session is remembered until 30 days after its sign-in. */
  ghost predicate RevokedSessionsOk(s: State) {
    && (forall k :: k in s.revokedSessions ==> k < s.nextSession)
    && (forall t :: t in s.issued && t.session in s.revokedSessions
          ==> s.revokedSessions[t.session] == t.authenticatedAt + SESSION_LIFETIME)
  }

  lemma LogoutKeepsRevokedSessions(s: State, token: Token)
    requires TokensOk(s) && RevokedSessionsOk(s) && token in s.issued
    ensures RevokedSessionsOk(RevokeSession(s, token))
  {
    var s' := RevokeSession(s, token);
    forall t | t in s'.issued && t.session in s'.revokedSessions
      ensures s'.revokedSessions[t.session] == t.authenticatedAt + SESSION_LIFETIME
    {
      assert SameSession(t, token);
      assert TokenOk(s, token);
    }
  }

  lemma StepKeepsRevokedSessions(cfg: Config, s: State, e: Event)
    requires AccountsCoherent(s) && ChangesOk(s) && TokensOk(s) && RevokedSessionsOk(s)
    ensures RevokedSessionsOk(Next(cfg, s, e))
  {
    var s' := Next(cfg, s, e);
    StepIssuesOne(cfg, s, e);
    RevokedSessionRows(cfg, s, e);
    if e.Logout? && Enabled(cfg, s, e) {
      LogoutKeepsRevokedSessions(s, e.token);
      return;
    }
    forall t | t in s'.issued && t.session in s'.revokedSessions
      ensures s'.revokedSessions[t.session] == t.authenticatedAt + SESSION_LIFETIME
    {
      if t !in s.issued {
        var r :| r in s.issued && r.session == t.session && SameSession(r, t);
      }
    }
  }

  lemma RevokedSessionRows(cfg: Config, s: State, e: Event)
    ensures !(e.Logout? && Enabled(cfg, s, e)) ==> Next(cfg, s, e).revokedSessions == s.revokedSessions
    ensures e.Logout? && Enabled(cfg, s, e) ==> Next(cfg, s, e) == RevokeSession(s, e.token) && e.token in s.issued
  {
    StepFrame(cfg, s, e);
  }

  ghost predicate LogoutVersionsAdvance(s: State, s': State) {
    forall i :: LogoutVersion(s, i) <= LogoutVersion(s', i)
  }

  lemma RevokeSidKeepsRows(s: State, issuer: string, sid: string)
    requires RowsOk(s)
    ensures RowsOk(RevokeSid(s, issuer, sid)) && LogoutVersionsAdvance(s, RevokeSid(s, issuer, sid))
  {
  }

  lemma BumpKeepsRows(s: State, i: Identity)
    requires RowsOk(s)
    ensures RowsOk(BumpLogoutVersion(s, i)) && LogoutVersionsAdvance(s, BumpLogoutVersion(s, i))
  {
  }

  lemma RevokeKeepsRows(s: State, l: LogoutToken)
    requires RowsOk(s)
    ensures RowsOk(Revoke(s, l)) && LogoutVersionsAdvance(s, Revoke(s, l))
  {
    if l.sid.Some? {
      RevokeSidKeepsRows(s, l.issuer, l.sid.value);
      if l.subject.Some? {
        BumpKeepsRows(RevokeSid(s, l.issuer, l.sid.value), Identity(l.issuer, l.subject.value));
      }
    }
  }

  lemma StepKeepsRows(cfg: Config, s: State, e: Event)
    requires RowsOk(s)
    ensures RowsOk(Next(cfg, s, e)) && LogoutVersionsAdvance(s, Next(cfg, s, e))
  {
    StepFrame(cfg, s, e);
    if Enabled(cfg, s, e) && e.BackchannelLogout? {
      LogoutKeepsRows(s, e.logout);
    } else {
      SameRowsStayOk(s, Next(cfg, s, e));
    }
  }

  lemma LogoutKeepsRows(s: State, l: LogoutToken)
    requires RowsOk(s)
    ensures RowsOk(ApplyLogout(s, l)) && LogoutVersionsAdvance(s, ApplyLogout(s, l))
  {
    if LogoutTakesEffect(s, l) {
      var rows := Pruned(s.processedLogouts, s.now)[(l.issuer, l.tokenId) := MarkerExpiry(l)];
      RevokeKeepsRows(s.(processedLogouts := rows), l);
    }
  }

  lemma SameRowsStayOk(s: State, s': State)
    requires RowsOk(s) && s'.revokedSids == s.revokedSids && s'.logoutVersions == s.logoutVersions && s.now <= s'.now
    ensures RowsOk(s') && LogoutVersionsAdvance(s, s')
  {
  }

  /** Passkey ids are never used twice. */
  ghost predicate PasskeysOk(s: State) {
    forall c :: c in s.passkeys ==> c < s.nextPasskey
  }

  lemma LinkOnlyRemovesPasskeys(s: State, id: UserId, i: Identity, role: Role, verified: bool)
    requires Link(s, id, i, role, verified).Some?
    ensures Link(s, id, i, role, verified).value.passkeys.Keys <= s.passkeys.Keys
  {
  }

  lemma SsoOnlyRemovesPasskeys(cfg: Config, s: State, i: Identity, username: string, preferred: bool, role: Role)
    requires SsoAccountFor(cfg, s, i, username, preferred, role).Some?
    ensures SsoAccountFor(cfg, s, i, username, preferred, role).value.0.passkeys.Keys <= s.passkeys.Keys
  {
    if AutoLink(s, i, username, preferred, role).Some? {
      LinkOnlyRemovesPasskeys(s, UserNamed(s, username).value, i, role, false);
    }
  }

  lemma StepKeepsPasskeys(cfg: Config, s: State, e: Event)
    requires PasskeysOk(s)
    ensures PasskeysOk(Next(cfg, s, e))
  {
    if Enabled(cfg, s, e) {
      if e.ConfirmLink? {
        LinkOnlyRemovesPasskeys(s, e.token.userId, e.identity, e.role, true);
      } else if e.SsoSignIn? {
        SsoOnlyRemovesPasskeys(cfg, s, e.identity, e.username, e.preferred, e.role);
      } else if IsAdminRoute(e) {
        AdminRouteKeepsPasskeys(cfg, s, e);
      } else {
        OtherStepKeepsPasskeys(cfg, s, e);
      }
    }
  }

  lemma AdminRouteKeepsPasskeys(cfg: Config, s: State, e: Event)
    requires PasskeysOk(s) && IsAdminRoute(e) && Enabled(cfg, s, e)
    ensures PasskeysOk(Effect(cfg, s, e))
  {
  }

  lemma OtherStepKeepsPasskeys(cfg: Config, s: State, e: Event)
    requires PasskeysOk(s) && !IsAdminRoute(e) && !e.ConfirmLink? && !e.SsoSignIn? && Enabled(cfg, s, e)
    ensures PasskeysOk(Effect(cfg, s, e))
  {
  }

  // ----- credential changes that were checked -----

  lemma CheckedChanges(cfg: Config, s: State, e: Event)
    ensures s.checkedChanges <= Next(cfg, s, e).checkedChanges
    ensures Next(cfg, s, e).checkedChanges == s.checkedChanges
      + (if e.CheckChange? && Enabled(cfg, s, e) then {(e.token.userId, e.credential)} else {})
  {
    StepFrame(cfg, s, e);
  }

  lemma StepKeepsChanges(cfg: Config, s: State, e: Event)
    requires AccountsCoherent(s) && ChangesOk(s)
    ensures ChangesOk(Next(cfg, s, e))
  {
    StepIsGood(cfg, s, e);
    CheckedChanges(cfg, s, e);
  }

  // ----- reachable states -----

  ghost predicate Inv(s: State) {
    AccountsCoherent(s) && ChangesOk(s) && TokensOk(s) && RowsOk(s) && RevokedSessionsOk(s) && PasskeysOk(s)
  }

  lemma StepKeepsInv(cfg: Config, s: State, e: Event)
    requires Inv(s)
    ensures Inv(Next(cfg, s, e))
  {
    StepIsGood(cfg, s, e);
    StepIssuesOne(cfg, s, e);
    TokensStayOk(s, Next(cfg, s, e));
    StepKeepsRows(cfg, s, e);
    StepKeepsRevokedSessions(cfg, s, e);
    StepKeepsPasskeys(cfg, s, e);
    StepKeepsChanges(cfg, s, e);
  }

  lemma {:induction false} RunKeepsInv(cfg: Config, s: State, events: seq<Event>)
    requires Inv(s)
    ensures Inv(Run(cfg, s, events))
    decreases |events|
  {
    if events != [] {
      StepKeepsInv(cfg, s, events[0]);
      RunKeepsInv(cfg, Next(cfg, s, events[0]), events[1..]);
    }
  }

  /** A fresh installation. */
  function Empty(settings: Settings, now: int): State {
    State(map[], 0, map[], 0, map[], map[], map[], map[], {}, {}, settings, now, 0, {})
  }

  lemma EmptyInv(settings: Settings, now: int)
    ensures Inv(Empty(settings, now))
  {
  }
}
