/** What each route and sign-in leaves in the rows, column by column. */
module AccountRoutes {
  import opened Wrappers
  import opened Accounts
  import opened AccountSteps
  import opened AccountInvariants
  import opened AccountAuthority

  // ----- accounts -----

  /** An administrator may create an account under any name that is free, and no other. */
  lemma CreationAllowedIff(cfg: Config, s: State, t: Token, username: string, role: Role, changeRequired: bool)
    requires IsAdministrator(cfg, s, t)
    ensures Enabled(cfg, s, CreateUser(t, username, role, changeRequired)) <==>
              forall id :: id in s.users ==> s.users[id].username != username
  {
    if id :| id in s.users && s.users[id].username == username {
      assert id in s.users.Keys;
    }
  }

  /** A new account is as asked, and nobody else's changes. */
  lemma AccountCreated(cfg: Config, s: State, t: Token, username: string, role: Role, changeRequired: bool)
    requires AccountsCoherent(s) && Enabled(cfg, s, CreateUser(t, username, role, changeRequired))
    ensures var s' := Next(cfg, s, CreateUser(t, username, role, changeRequired));
            && s.nextUser !in s.users && s.nextUser in s'.users
            && (forall id :: id != s.nextUser ==> SameRow(s, s', id)) && s'.passkeys == s.passkeys
            && var u := s'.users[s.nextUser];
               && u.username == username && u.role == role && u.changeRequired == changeRequired && u.hasPassword
               && !u.disabled && u.identity == None && !u.linked && u.provider == PasswordProvider
               && u.autoLinkBlocked == s.settings.autoLink
  {
  }

  ghost predicate OtherAccountsSame(s: State, s': State, id: UserId) {
    forall other :: other != id ==> SameAccount(s, s', other)
  }

  /** A role and a switch are set as asked; nobody else's account and no other column but the version
      changes. */
  lemma AccountPatched(cfg: Config, s: State, t: Token, id: UserId, newRole: Option<Role>, newDisabled: Option<bool>)
    requires Enabled(cfg, s, PatchUser(t, id, newRole, newDisabled))
    ensures var s' := Next(cfg, s, PatchUser(t, id, newRole, newDisabled));
            && OtherAccountsSame(s, s', id) && s'.passkeys == s.passkeys && id in s.users && id in s'.users
            && var u, u' := s.users[id], s'.users[id];
               && u'.role == (if newRole == None then u.role else newRole.value)
               && u'.disabled == (if newDisabled == None then u.disabled else newDisabled.value)
               && u' == u.(role := u'.role, disabled := u'.disabled, version := u'.version)
  {
  }

  /** An administrator may make any other account with a password an administrator, or enable it. */
  lemma PromotionAllowed(cfg: Config, s: State, t: Token, id: UserId, newDisabled: Option<bool>)
    requires IsAdministrator(cfg, s, t) && id in s.users && id != t.userId && s.users[id].hasPassword
    requires newDisabled != Some(true)
    ensures Enabled(cfg, s, PatchUser(t, id, Some(Admin), newDisabled))
  {
  }

  /** A reset gives the account a password and asks for a new one as the administrator says. */
  lemma PasswordReset(cfg: Config, s: State, t: Token, id: UserId, changeRequired: bool)
    requires IsAdministrator(cfg, s, t) && id in s.users && id != t.userId
    ensures var e := ResetPassword(t, id, changeRequired);
            && (Enabled(cfg, s, e) <==> s.users[id].hasPassword || s.users[id].provider != OidcProvider)
            && (Enabled(cfg, s, e) ==>
                  var u, s' := s.users[id], Next(cfg, s, e);
                  && OtherAccountsSame(s, s', id) && s'.passkeys == s.passkeys && id in s'.users
                  && var u' := s'.users[id];
                     && u'.hasPassword && u'.changeRequired == changeRequired && u'.version == u.version + 1
                     && u' == u.(hasPassword := true, changeRequired := changeRequired, version := u'.version))
  {
  }

  /** Resetting the second factors takes the account's passkeys and nobody else's. */
  lemma FactorsReset(cfg: Config, s: State, t: Token, id: UserId)
    requires Enabled(cfg, s, ResetMfa(t, id))
    ensures var s' := Next(cfg, s, ResetMfa(t, id));
            && id in s.users && id in s'.users && s'.users[id] == s.users[id].(version := s.users[id].version + 1)
            && OtherAccountsSame(s, s', id) && forall c :: c in s'.passkeys ==> s'.passkeys[c] != id
  {
  }

  /** Deleting an account takes it and its passkeys and nobody else's. */
  lemma AccountDeleted(cfg: Config, s: State, t: Token, id: UserId)
    requires Enabled(cfg, s, DeleteUser(t, id))
    ensures var s' := Next(cfg, s, DeleteUser(t, id));
            id !in s'.users && OtherAccountsSame(s, s', id) && forall c :: c in s'.passkeys ==> s'.passkeys[c] != id
  {
  }

  /** Unlinking takes the identity and the provider's role, and leaves the password and the own role. */
  lemma AccountUnlinked(cfg: Config, s: State, e: Event, id: UserId)
    requires Enabled(cfg, s, e) && ((e.AdminUnlink? && e.id == id) || (e.SelfUnlink? && e.token.userId == id))
    ensures var s' := Next(cfg, s, e);
            && id in s.users && id in s'.users && OtherAccountsSame(s, s', id) && s'.passkeys == s.passkeys
            && var u, u' := s.users[id], s'.users[id];
               && u'.identity == None && u'.ssoRole == None && !u'.linked && u'.provider == PasswordProvider
               && u'.hasPassword == u.hasPassword && u'.role == u.role && u'.username == u.username
               && u'.disabled == u.disabled && u'.autoLinkBlocked
  {
  }

  /** Linking gives the account the identity and the provider's role beside its own. */
  lemma AccountLinked(cfg: Config, s: State, e: Event)
    requires e.ConfirmLink? && Enabled(cfg, s, e)
    ensures var id, s' := e.token.userId, Next(cfg, s, e);
            && id in s.users && id in s'.users
            && var u, u' := s.users[id], s'.users[id];
               && u'.identity == Some(e.identity) && u'.ssoRole == Some(e.role) && u'.linked && u'.hasPassword
               && u'.role == u.role && u'.username == u.username && u'.disabled == u.disabled
  {
  }

  /** Settings are as asked, and stay where nothing was asked. */
  lemma SettingsSaved(cfg: Config, s: State, t: Token, d: SettingsUpdate)
    requires Enabled(cfg, s, PutSettings(t, d))
    ensures var x, x' := s.settings, Next(cfg, s, PutSettings(t, d)).settings;
            && x'.disablePasswordLogin ==
                (if d.disablePasswordLogin == None then x.disablePasswordLogin else d.disablePasswordLogin.value)
            && x'.issuer == (if d.issuer == None then x.issuer else d.issuer.value)
            && x'.clientId == (if d.clientId == None then x.clientId else d.clientId.value)
            && x'.autoLink == (if d.autoLink == None then x.autoLink else d.autoLink.value)
  {
  }

  /** The first account is an administrator with a password, whose session is accepted. */
  lemma FirstAccount(cfg: Config, s: State, username: string) returns (t: Token)
    requires Inv(s) && Enabled(cfg, s, Setup(username))
    ensures var s' := Next(cfg, s, Setup(username));
            && s.users == map[] && s'.users.Keys == {s.nextUser} && t.userId == s.nextUser && t.authMethod == ByPassword
            && s'.users[s.nextUser].username == username && s'.users[s.nextUser].hasPassword
            && Accepts(s', t) && HasAdminAccess(s', t)
  {
    var s' := Next(cfg, s, Setup(username));
    t := NewToken(s', s.nextUser, ByPassword, s.now, None, s.nextSession);
  }

  /** A sign-in with a password or a passkey issues an accepted session of that account. */
  lemma LocalSignInAccepted(cfg: Config, s: State, e: Event, id: UserId) returns (t: Token)
    requires Inv(s) && Enabled(cfg, s, e)
    requires e == PasswordLogin(id) || (e.PasskeyLogin? && e.passkey in s.passkeys && s.passkeys[e.passkey] == id)
    ensures var s' := Next(cfg, s, e);
            && Accepts(s', t) && t.userId == id && t.authMethod == (if e.PasswordLogin? then ByPassword else ByPasskey)
            && t.session == s.nextSession && t.expires == s.now + 2592000
            && (HasAdminAccess(s', t) <==> s.users[id].role == Admin)
  {
    t := NewToken(s, id, if e.PasswordLogin? then ByPassword else ByPasskey, s.now, None, s.nextSession);
  }

  /** An SSO sign-in does too, unless its account is disabled or the provider has ended that session. */
  lemma SsoSignInAccepted(cfg: Config, s: State, e: Event) returns (t: Token)
    requires Inv(s) && e.SsoSignIn? && Enabled(cfg, s, e) && s.now != 0
    ensures var s' := Next(cfg, s, e);
            && t in s'.issued && t.authMethod == BySso && t.sid == e.sid && t.session == s.nextSession
            && t.userId in s'.users
            && (Accepts(s', t) <==>
                  && !s'.users[t.userId].disabled
                  && (e.sid.Some? && (e.identity.issuer, e.sid.value) in s.revokedSids ==>
                        s.revokedSids[(e.identity.issuer, e.sid.value)] <= s.now))
  {
    t := SignInGivesProviderRole(cfg, s, e);
    StepKeepsInv(cfg, s, e);
    StepFrame(cfg, s, e);
    var signed := SsoAccountFor(cfg, s, e.identity, e.username, e.preferred, e.role).value;
    assert t == NewToken(signed.0, signed.1, BySso, s.now, e.sid, s.nextSession);
  }

  /** A cookie refresh goes on with the session until its 30 days are over. */
  lemma CookieRefreshed(cfg: Config, s: State, t: Token) returns (renewed: Token)
    requires Inv(s) && Enabled(cfg, s, RefreshCookie(t))
    ensures var s' := Next(cfg, s, RefreshCookie(t));
            && s'.issued == s.issued + {renewed} && s'.users == s.users && renewed.session == t.session
            && renewed.authMethod == t.authMethod && renewed.userId == t.userId &&
                renewed.authenticatedAt == t.authenticatedAt
            && renewed.issuedAt == s.now && renewed.expires == t.authenticatedAt + 2592000 && Accepts(s', renewed)
  {
    renewed := NewToken(s, t.userId, t.authMethod, t.authenticatedAt, None, t.session);
    assert TokenOk(s, t);
  }

  /** Whoever links or unlinks the own account stays signed in, with a new session of the same kind. */
  lemma HolderStaysSignedIn(cfg: Config, s: State, e: Event) returns (renewed: Token)
    requires Inv(s) && (e.ConfirmLink? || e.SelfUnlink?) && Enabled(cfg, s, e)
    ensures var s' := Next(cfg, s, e);
            && s'.issued == s.issued + {renewed} && Accepts(s', renewed) && renewed.userId == e.token.userId
            && renewed.authMethod == e.token.authMethod && renewed.session == s.nextSession
  {
    var s1 := if e.ConfirmLink? then Link(s, e.token.userId, e.identity, e.role, true).value
              else SetUser(s, e.token.userId, Unlinked(s.users[e.token.userId]));
    renewed := NewToken(s1, e.token.userId, e.token.authMethod, s.now, None, s.nextSession);
    LocalSessionStarts(s1, e.token.userId, e.token.authMethod);
  }

  lemma LocalSessionStarts(s: State, id: UserId, authMethod: AuthMethod)
    requires id in s.users && !s.users[id].disabled && s.users[id].hasPassword && authMethod != BySso
    requires s.nextSession !in s.revokedSessions
    ensures Accepts(SignIn(s, id, authMethod, None), NewToken(s, id, authMethod, s.now, None, s.nextSession))
  {
  }
}
