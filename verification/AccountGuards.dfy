/** What each route and sign-in asks for, in the rows, the settings and the configuration. */
module AccountGuards {
  import opened Wrappers
  import opened Accounts
  import opened AccountSteps
  import opened AccountInvariants
  import opened AccountAuthority
  import opened AccountStore

  // ----- signing in -----

  predicate SsoConfigured(s: State) { s.settings.issuer != "" && s.settings.clientId != "" }

  /** An enabled administrator, who may sign in without the provider, has a passkey. */
  ghost predicate SomeAdminHasPasskey(s: State) {
    exists c :: c in s.passkeys && s.passkeys[c] in s.users && AdminWithPasskey(s.users[s.passkeys[c]])
  }

  predicate AdminWithPasskey(u: User) {
    u.role == Admin && !u.disabled && (u.hasPassword || u.provider == PasswordProvider)
  }

  /** The setting, or the configuration where it pins it; pinned off only where there is another way in. */
  ghost predicate PasswordLoginOn(cfg: Config, s: State) {
    if cfg.passwordLogin == None then !s.settings.disablePasswordLogin
    else cfg.passwordLogin == Some(true) || (!SsoConfigured(s) && !SomeAdminHasPasskey(s))
  }

  lemma PasswordLoginOnIff(cfg: Config, s: State)
    ensures PasswordLoginOn(cfg, s) <==> !PasswordLoginDisabled(cfg, s)
  {
    if c :| c in s.passkeys && s.passkeys[c] in s.users && AdminWithPasskey(s.users[s.passkeys[c]]) {
      assert c in s.passkeys.Keys;
    }
  }

  lemma LocalSignInIff(cfg: Config, s: State, id: UserId, passkey: nat)
    ensures Enabled(cfg, s, PasswordLogin(id)) <==>
              id in s.users && s.users[id].hasPassword && !s.users[id].disabled && PasswordLoginOn(cfg, s)
    ensures Enabled(cfg, s, PasskeyLogin(passkey)) <==>
              && passkey in s.passkeys && s.passkeys[passkey] in s.users
              && var u := s.users[s.passkeys[passkey]]; !u.disabled && (u.hasPassword || u.provider == PasswordProvider)
  {
    PasswordLoginOnIff(cfg, s);
  }

  lemma SetupIff(cfg: Config, s: State, username: string)
    ensures Enabled(cfg, s, Setup(username)) <==> s.users == map[] && PasswordLoginOn(cfg, s)
  {
    PasswordLoginOnIff(cfg, s);
  }

  // ----- which sessions are accepted -----

  /** The token was signed here, has not expired, and its session has not been signed out. */
  predicate TokenHolds(s: State, t: Token) {
    && t in s.issued && s.now <= t.expires
    && (t.session in s.revokedSessions ==> s.revokedSessions[t.session] <= s.now)
  }

  /** Its account exists, is enabled and has not moved on. */
  predicate AccountHolds(s: State, t: Token) {
    t.userId in s.users && !s.users[t.userId].disabled && s.users[t.userId].version == t.version
  }

  /** An SSO session is at most a day old, its account lives at the provider, and the provider has not ended
      it: by the version of a linked account, the session's id, or the identity's logout version. */
  predicate ProviderHolds(s: State, t: Token)
    requires t.userId in s.users
  {
    var u := s.users[t.userId];
    && t.issuedAt != 0 && s.now <= t.issuedAt + 86400 && u.provider == OidcProvider
    && (u.linked ==> t.ssoVersion == Some(u.ssoVersion))
    && (u.identity.Some? ==>
          if t.sid.Some?
          then (u.identity.value.issuer, t.sid.value) in s.revokedSids ==>
                 s.revokedSids[(u.identity.value.issuer, t.sid.value)] <= s.now
          else t.logoutVersion == CurrentLogoutVersion(s, u.identity.value))
  }

  /** Identities start with logout version 1. */
  function CurrentLogoutVersion(s: State, i: Identity): nat {
    if i in s.logoutVersions then s.logoutVersions[i] else 1
  }

  lemma SessionAcceptedIff(s: State, t: Token)
    ensures Accepts(s, t) <==>
              && TokenHolds(s, t) && AccountHolds(s, t)
              && (t.authMethod == BySso ==> ProviderHolds(s, t))
              && (t.authMethod == ByPasskey ==>
                  s.users[t.userId].hasPassword || s.users[t.userId].provider == PasswordProvider)
  {
  }

  // ----- a session's own routes -----

  /** The session must set a new password before anything else. */
  predicate MustSetPassword(s: State, t: Token)
    requires t.userId in s.users
  {
    t.authMethod == ByPassword && s.users[t.userId].changeRequired
  }

  /** The provider alone vouches for the session: an SSO session of a linked account, or an account without
      a password of its own. */
  predicate ProviderOnly(s: State, t: Token)
    requires t.userId in s.users
  {
    var u := s.users[t.userId];
    (t.authMethod == BySso && u.linked) || (u.provider == OidcProvider && !u.hasPassword)
  }

  lemma SessionRoutesIff(cfg: Config, s: State, t: Token, c: Credential)
    ensures Enabled(cfg, s, Logout(t)) <==> t in s.issued && t.expires >= s.now
    ensures Enabled(cfg, s, RefreshCookie(t)) <==>
              && Accepts(s, t) && !MustSetPassword(s, t) && t.authMethod != BySso
              && t.issuedAt != 0 && s.now > t.issuedAt + 86400
    ensures Enabled(cfg, s, CheckChange(t, c)) <==>
              && Accepts(s, t) && t.authMethod == ByPassword && s.users[t.userId].hasPassword
              && (c == PasswordHash || !s.users[t.userId].changeRequired)
    ensures Enabled(cfg, s, RegisterPasskey(t)) <==> Accepts(s, t) && !MustSetPassword(s, t) && !ProviderOnly(s, t)
  {
  }

  lemma OwnPasskeyDeleted(cfg: Config, s: State, t: Token, c: nat)
    requires Enabled(cfg, s, DeletePasskey(t, c))
    ensures Accepts(s, t) && !MustSetPassword(s, t) && !ProviderOnly(s, t) && c in s.passkeys &&
            s.passkeys[c] == t.userId
    ensures Next(cfg, s, DeletePasskey(t, c)).passkeys == s.passkeys - {c}
  {
  }

  lemma PasskeyRegistered(cfg: Config, s: State, t: Token)
    requires PasskeysOk(s) && Enabled(cfg, s, RegisterPasskey(t))
    ensures var s' := Next(cfg, s, RegisterPasskey(t));
            s.nextPasskey !in s.passkeys && s'.passkeys == s.passkeys[s.nextPasskey := t.userId]
  {
  }

  /** Linking and unlinking oneself takes a local session; a link also takes a sign-in at the provider that
      began with the account as it is now, a password, and an identity that no other account can lose. */
  lemma OwnLinkNeeds(cfg: Config, s: State, e: Event)
    requires (e.ConfirmLink? || e.SelfUnlink?) && Enabled(cfg, s, e)
    ensures Accepts(s, e.token) && !MustSetPassword(s, e.token) && e.token.authMethod != BySso
    ensures var u := s.users[e.token.userId];
            if e.SelfUnlink? then u.linked else e.pendingVersion == u.version && u.hasPassword && !u.linked
    ensures e.ConfirmLink? && Unique(s) ==>
              forall id :: id in s.users && id != e.token.userId && s.users[id].identity == Some(e.identity) ==>
                !s.users[id].hasPassword && !s.users[id].disabled
  {
    if e.ConfirmLink? && Unique(s) {
      forall id | id in s.users && id != e.token.userId && s.users[id].identity == Some(e.identity)
        ensures !s.users[id].hasPassword && !s.users[id].disabled
      {
        IdentityOwnerIs(s, e.identity, id);
      }
    }
  }

  // ----- administrators' routes -----

  /** An enabled administrator by the own role, or by the provider's on a link to the issuer in use. */
  predicate ActiveAdministrator(cfg: Config, s: State, id: UserId) {
    && id in s.users && !s.users[id].disabled
    && var u := s.users[id];
       u.role == Admin ||
         (u.linked && u.ssoRole == Some(Admin) && u.identity.Some? && IssuerInUse(cfg, s, u.identity.value.issuer))
  }

  /** The issuer whose address, written in full, is that of the configured one. */
  predicate IssuerInUse(cfg: Config, s: State, issuer: string) {
    issuer != "" && SsoConfigured(s) && cfg.href(issuer) != None && cfg.href(issuer) == cfg.href(s.settings.issuer)
  }

  ghost predicate LastAdministrator(cfg: Config, s: State, id: UserId) {
    ActiveAdministrator(cfg, s, id) && forall other :: other != id ==> !ActiveAdministrator(cfg, s, other)
  }

  /** Without this account's passkeys, or without this one passkey, no administrator could sign in. */
  ghost predicate NoOtherWayIn(cfg: Config, s: State, id: Option<UserId>, passkey: Option<nat>) {
    && !PasswordLoginOn(cfg, s) && !SsoConfigured(s)
    && forall c :: c in s.passkeys && s.passkeys[c] in s.users && Some(c) != passkey && Some(s.passkeys[c]) != id ==>
         !AdminWithPasskey(s.users[s.passkeys[c]])
  }

  lemma LastAdministratorIff(cfg: Config, s: State, id: UserId)
    requires id in s.users
    ensures LastAdministrator(cfg, s, id) <==> IsLastActiveAdmin(cfg, s, id)
  {
    forall other
      ensures other in s.users && IsActiveAdmin(cfg, s, s.users[other]) <==> ActiveAdministrator(cfg, s, other)
    {
    }
    if IsLastActiveAdmin(cfg, s, id) {
      forall other | other != id ensures !ActiveAdministrator(cfg, s, other) {
        assert other in s.users ==> other in s.users.Keys;
      }
    }
  }

  lemma NoOtherWayInIff(cfg: Config, s: State, id: Option<UserId>, passkey: Option<nat>)
    ensures NoOtherWayIn(cfg, s, id, passkey) <==> WouldLockOut(cfg, s, passkey, id)
  {
    PasswordLoginOnIff(cfg, s);
    forall c | c in s.passkeys ensures c in s.passkeys.Keys {
    }
  }

  /** Accounts that an administrator may manage beside their own, credentials included. */
  predicate MayManage(cfg: Config, s: State, t: Token, id: UserId) {
    && IsAdministrator(cfg, s, t) && id in s.users && id != t.userId
    && (s.users[id].hasPassword || s.users[id].provider == PasswordProvider)
  }

  /** A patch is refused only where it would take the last administrator or the last way in. */
  lemma PatchAllowedIff(cfg: Config, s: State, t: Token, id: UserId, newRole: Option<Role>, newDisabled: Option<bool>)
    ensures Enabled(cfg, s, PatchUser(t, id, newRole, newDisabled)) <==>
              && MayManage(cfg, s, t, id)
              && (ActiveAdministrator(cfg, s, id)
                  && ((newRole == Some(ReadOnly) && s.users[id].role == Admin) || newDisabled == Some(true)) ==>
                    !LastAdministrator(cfg, s, id) && !NoOtherWayIn(cfg, s, Some(id), None))
  {
    NoOtherWayInIff(cfg, s, Some(id), None);
    if id in s.users {
      LastAdministratorIff(cfg, s, id);
    }
  }

  /** Likewise an unlink, a reset of the second factors and a deletion. */
  lemma RemovalAllowedIff(cfg: Config, s: State, t: Token, id: UserId)
    ensures Enabled(cfg, s, ResetMfa(t, id)) <==> MayManage(cfg, s, t, id) && !TakesWayIn(cfg, s, id)
    ensures Enabled(cfg, s, AdminUnlink(t, id)) <==>
              && MayManage(cfg, s, t, id) && s.users[id].linked
              && (s.users[id].role != Admin ==> !LastAdministrator(cfg, s, id))
    ensures Enabled(cfg, s, DeleteUser(t, id)) <==>
              && IsAdministrator(cfg, s, t) && id in s.users && id != t.userId
              && !LastAdministrator(cfg, s, id) && !TakesWayIn(cfg, s, id)
  {
    NoOtherWayInIff(cfg, s, Some(id), None);
    if id in s.users {
      LastAdministratorIff(cfg, s, id);
    }
  }

  ghost predicate TakesWayIn(cfg: Config, s: State, id: UserId)
    requires id in s.users
  {
    s.users[id].role == Admin && !s.users[id].disabled && NoOtherWayIn(cfg, s, Some(id), None)
  }

  /** A passkey of one's own stays where no other administrator could sign in without it. */
  lemma PasskeyDeletionIff(cfg: Config, s: State, t: Token, c: nat)
    ensures Enabled(cfg, s, DeletePasskey(t, c)) <==>
              && Accepts(s, t) && !MustSetPassword(s, t) && !ProviderOnly(s, t) && c in s.passkeys &&
                  s.passkeys[c] == t.userId
              && !(HasAdminAccess(s, t) && NoOtherWayIn(cfg, s, None, Some(c)))
  {
    NoOtherWayInIff(cfg, s, None, Some(c));
  }

  /** Settings are refused where they are managed, or would turn off password login without another way in. */
  lemma SettingsAllowedIff(cfg: Config, s: State, t: Token, d: SettingsUpdate)
    ensures Enabled(cfg, s, PutSettings(t, d)) <==>
              && IsAdministrator(cfg, s, t) && !SetsManaged(cfg, d)
              && (cfg.passwordLogin != None || SomeAdminHasPasskey(s) || KeepsWayIn(cfg, s, d))
  {
    PasswordLoginOnIff(cfg, s);
    if k :| k in s.passkeys && s.passkeys[k] in s.users && AdminWithPasskey(s.users[s.passkeys[k]]) {
      assert k in s.passkeys.Keys;
    }
  }

  predicate SetsManaged(cfg: Config, d: SettingsUpdate) {
    || (d.disablePasswordLogin != None && cfg.passwordLogin != None) || (d.issuer != None && cfg.managesIssuer)
    || (d.clientId != None && cfg.managesClientId) || (d.autoLink != None && cfg.managesAutoLink)
  }

  /** Password login stays on, or the provider stays configured. */
  ghost predicate KeepsWayIn(cfg: Config, s: State, d: SettingsUpdate) {
    || d.disablePasswordLogin == Some(false) || (d.disablePasswordLogin == None && PasswordLoginOn(cfg, s))
    || ((if d.issuer == None then s.settings.issuer else d.issuer.value) != ""
        && (if d.clientId == None then s.settings.clientId else d.clientId.value) != "")
  }

  /** Nobody manages the account the session is for, and credentials of accounts that live at the provider
      are not managed here. */
  lemma ManagedAccount(cfg: Config, s: State, e: Event)
    requires e.PatchUser? || e.ResetPassword? || e.ResetMfa? || e.AdminUnlink? || e.DeleteUser?
    requires Enabled(cfg, s, e)
    ensures e.id in s.users && e.id != e.token.userId && IsAdministrator(cfg, s, e.token)
    ensures !e.DeleteUser? ==> s.users[e.id].hasPassword || s.users[e.id].provider == PasswordProvider
    ensures e.AdminUnlink? ==> s.users[e.id].linked
  {
  }

  /** What the configuration manages cannot be set. */
  lemma ManagedSettingsStay(cfg: Config, s: State, e: Event)
    ensures var x, x' := s.settings, Next(cfg, s, e).settings;
            && (cfg.passwordLogin != None ==> x'.disablePasswordLogin == x.disablePasswordLogin)
            && (cfg.managesIssuer ==> x'.issuer == x.issuer) && (cfg.managesClientId ==> x'.clientId == x.clientId)
            && (cfg.managesAutoLink ==> x'.autoLink == x.autoLink)
  {
    StepFrame(cfg, s, e);
  }

  // ----- the provider -----

  /** Nothing comes from a provider that is not configured, and a logout token is checked within five minutes
      of its issue. */
  lemma ProviderNeeds(cfg: Config, s: State, e: Event)
    requires Enabled(cfg, s, e) && (e.SsoSignIn? || e.SsoDenied? || e.VerifyLogout?)
    ensures SsoConfigured(s)
    ensures e.VerifyLogout? ==>
              && e.logout.issuedAt <= s.now <= e.logout.issuedAt + 300
              && (e.logout.subject != None || e.logout.sid != None)
  {
  }

  lemma CheckedLogoutIff(cfg: Config, s: State, l: LogoutToken)
    ensures Enabled(cfg, s, BackchannelLogout(l)) <==> l in s.verifiedLogouts
    ensures Enabled(cfg, s, VerifyLogout(l)) ==> l in Next(cfg, s, VerifyLogout(l)).verifiedLogouts
    ensures forall e :: e != VerifyLogout(l) && l in Next(cfg, s, e).verifiedLogouts ==> l in s.verifiedLogouts
  {
    forall e | e != VerifyLogout(l) && l in Next(cfg, s, e).verifiedLogouts ensures l in s.verifiedLogouts {
      StepFrame(cfg, s, e);
    }
  }

  /** The account a sign-in may be linked to unasked: an enabled local one of that username which was never
      unlinked, where the provider's name is trusted and the setting allows it. */
  predicate LinksUnasked(s: State, username: string, preferred: bool, id: UserId) {
    && preferred && s.settings.autoLink && id in s.users
    && var u := s.users[id];
       u.username == username && u.hasPassword && !u.disabled && !u.autoLinkBlocked && u.identity == None && !u.linked
  }

  /** The identity's separate account, if any, has no password and is not disabled. */
  ghost predicate MayMerge(s: State, i: Identity) {
    forall id :: id in s.users && s.users[id].identity == Some(i) ==>
      s.users[id].provider == OidcProvider && !s.users[id].hasPassword && !s.users[id].disabled
  }

  lemma AutoLinkIff(s: State, i: Identity, username: string, preferred: bool, role: Role)
    requires Unique(s)
    ensures AutoLink(s, i, username, preferred, role).Some? <==>
              MayMerge(s, i) && exists id :: LinksUnasked(s, username, preferred, id)
    ensures forall id :: AutoLink(s, i, username, preferred, role).Some? && LinksUnasked(s, username, preferred, id) ==>
              AutoLink(s, i, username, preferred, role).value.1 == id
  {
    if AutoLink(s, i, username, preferred, role).Some? {
      AutoLinkNeeds(s, i, username, preferred, role);
    }
    forall id: UserId | LinksUnasked(s, username, preferred, id) && MayMerge(s, i)
      ensures AutoLink(s, i, username, preferred, role).Some?
    {
      AutoLinkMade(s, i, username, preferred, role, id);
    }
    forall id: UserId | LinksUnasked(s, username, preferred, id) ensures UserNamed(s, username) == Some(id) {
      UserNamedIs(s, username, id);
    }
  }

  lemma AutoLinkMade(s: State, i: Identity, username: string, preferred: bool, role: Role, id: UserId)
    requires Unique(s) && MayMerge(s, i) && LinksUnasked(s, username, preferred, id)
    ensures AutoLink(s, i, username, preferred, role).Some?
  {
    UserNamedIs(s, username, id);
    var owner := IdentityOwner(s, i);
    assert owner.Some? ==> Owns(s, owner.value, i) && owner.value != id;
    assert Link(s, id, i, role, false).Some?;
  }

  lemma AutoLinkNeeds(s: State, i: Identity, username: string, preferred: bool, role: Role)
    requires Unique(s) && AutoLink(s, i, username, preferred, role).Some?
    ensures MayMerge(s, i) && LinksUnasked(s, username, preferred, AutoLink(s, i, username, preferred, role).value.1)
  {
    forall id | id in s.users && s.users[id].identity == Some(i)
      ensures s.users[id].provider == OidcProvider && !s.users[id].hasPassword && !s.users[id].disabled
    {
      IdentityOwnerIs(s, i, id);
    }
  }

  /** Without such a link, the account of a sign-in is the identity's; else an SSO account under the name
      that no identity has claimed; else a new one. */
  lemma SignInAccount(cfg: Config, s: State, i: Identity, username: string, role: Role)
    requires Unique(s) && Upsert(cfg, s, i, username, role).Some?
    ensures var id := Upsert(cfg, s, i, username, role).value.1;
            && (forall k :: Owns(s, k, i) ==> id == k)
            && (forall k :: Unowned(s, i) && Claimable(s, username, k) ==> id == k)
            && (Unowned(s, i) && (forall k :: !Claimable(s, username, k)) ==> id == s.nextUser)
  {
    forall k: UserId | Owns(s, k, i) ensures IdentityOwner(s, i) == Some(k) {
      IdentityOwnerIs(s, i, k);
    }
    if Unowned(s, i) {
      NobodyOwns(s, i);
      forall k: UserId | Claimable(s, username, k) ensures UpsertTarget(s, i, username) == Some(k) {
        UserNamedIs(s, username, k);
      }
      if UpsertTarget(s, i, username).Some? {
        assert Claimable(s, username, UpsertTarget(s, i, username).value);
      }
    }
  }

  ghost predicate Unowned(s: State, i: Identity) {
    forall id :: !Owns(s, id, i)
  }

  ghost predicate Claimable(s: State, username: string, id: UserId) {
    && id in s.users
    && var u := s.users[id];
       u.username == username && u.provider == OidcProvider && !u.hasPassword && u.identity == None
  }
}
