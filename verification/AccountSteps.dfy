/** Everything that can happen to accounts and sessions, as steps of one state machine: the routes
    with their refusals, sign-ins, identity-provider events and the clock. */
module AccountSteps {
  import opened Wrappers
  import opened Accounts

  datatype SettingsUpdate = SettingsUpdate(
    disablePasswordLogin: Option<bool>, issuer: Option<string>, clientId: Option<string>, autoLink: Option<bool>)

  datatype Event =
    | Tick(seconds: nat)
    // sign-in and sign-out
    | Setup(username: string)
    | PasswordLogin(id: UserId)
    | PasskeyLogin(passkey: nat)
    | Logout(token: Token)
    | RefreshCookie(token: Token)
    // an account holder's own routes
    | CheckChange(token: Token, credential: Credential)
    | ChangeCredential(id: UserId, credential: Credential)
    | RegisterPasskey(token: Token)
    | DeletePasskey(token: Token, passkey: nat)
    | ConfirmLink(token: Token, identity: Identity, role: Role, pendingVersion: nat)
    | SelfUnlink(token: Token)
    // administrator routes
    | CreateUser(token: Token, username: string, role: Role, changeRequired: bool)
    | PatchUser(token: Token, id: UserId, newRole: Option<Role>, newDisabled: Option<bool>)
    | ResetPassword(token: Token, id: UserId, changeRequired: bool)
    | ResetMfa(token: Token, id: UserId)
    | AdminUnlink(token: Token, id: UserId)
    | DeleteUser(token: Token, id: UserId)
    | PutSettings(token: Token, update: SettingsUpdate)
    // identity-provider events
    | SsoSignIn(identity: Identity, username: string, preferred: bool, role: Role, sid: Option<string>)
    | SsoDenied(identity: Identity)
    | VerifyLogout(logout: LogoutToken)
    | BackchannelLogout(logout: LogoutToken)

  predicate IsProviderEvent(e: Event) {
    e.SsoSignIn? || e.SsoDenied? || e.VerifyLogout? || e.BackchannelLogout?
  }

  /** The account an administrator's route may act on. */
  predicate Manages(cfg: Config, s: State, token: Token, id: UserId, localOnly: bool) {
    && IsAdminSession(cfg, s, token)
    && id in s.users && id != token.userId
    && (localOnly ==> !IsOidcOnly(s.users[id]))
  }

  predicate PatchLosesAdmin(cfg: Config, s: State, u: User, newRole: Option<Role>, newDisabled: Option<bool>) {
    IsActiveAdmin(cfg, s, u) && ((newRole == Some(ReadOnly) && u.role == Admin) || newDisabled == Some(true))
  }

  function Patched(u: User, newRole: Option<Role>, newDisabled: Option<bool>): User {
    var u1 := if newRole.Some? then u.(role := newRole.value) else u;
    if newDisabled.None? then u1
    else u1.(disabled := newDisabled.value, version := u1.version + (if newDisabled.value then 1 else 0))
  }

  function Or<T>(o: Option<T>, default: T): T { if o.Some? then o.value else default }

  predicate SettingsManaged(cfg: Config, d: SettingsUpdate) {
    || (d.disablePasswordLogin.Some? && cfg.passwordLogin.Some?)
    || (d.issuer.Some? && cfg.managesIssuer)
    || (d.clientId.Some? && cfg.managesClientId)
    || (d.autoLink.Some? && cfg.managesAutoLink)
  }

  predicate SettingsWouldLockOut(cfg: Config, s: State, d: SettingsUpdate) {
    && cfg.passwordLogin.None?
    && Or(d.disablePasswordLogin, PasswordLoginDisabled(cfg, s))
    && !HasAdminPasskey(s, None, None)
    && !(Or(d.issuer, s.settings.issuer) != "" && Or(d.clientId, s.settings.clientId) != "")
  }

  function Updated(x: Settings, d: SettingsUpdate): Settings {
    Settings(Or(d.disablePasswordLogin, x.disablePasswordLogin), Or(d.issuer, x.issuer), Or(d.clientId, x.clientId),
      Or(d.autoLink, x.autoLink))
  }

  function LocalAccount(s: State, username: string, role: Role, changeRequired: bool): User {
    User(username, true, role, PasswordProvider, None, 1, false, changeRequired, false, None, 0, s.settings.autoLink)
  }

  function RevokeSession(s: State, t: Token): State {
    s.(revokedSessions := Pruned(s.revokedSessions, s.now)[t.session := t.authenticatedAt + SESSION_LIFETIME])
  }

  /** The account an SSO sign-in ends up with: an automatic link if there is one to make. */
  ghost function SsoAccountFor(cfg: Config, s: State, i: Identity, username: string, preferred: bool, role: Role)
    : (r: Option<(State, UserId)>)
    ensures r.Some? ==> SameExceptAccounts(s, r.value.0)
    ensures r.Some? ==> r.value.1 in r.value.0.users && r.value.0.users[r.value.1].identity == Some(i)
  {
    var linked := AutoLink(s, i, username, preferred, role);
    if linked.Some? then linked else Upsert(cfg, s, i, username, role)
  }

  /** The guard of each step; a step whose guard fails leaves everything as it was. */
  ghost predicate Enabled(cfg: Config, s: State, e: Event) {
    match e
    case Tick(_) => true
    case Setup(_) => s.users == map[] && !PasswordLoginDisabled(cfg, s)
    case PasswordLogin(id) =>
      !PasswordLoginDisabled(cfg, s) && id in s.users && s.users[id].hasPassword && !s.users[id].disabled
    case PasskeyLogin(c) =>
      c in s.passkeys && s.passkeys[c] in s.users && !s.users[s.passkeys[c]].disabled &&
        !IsOidcOnly(s.users[s.passkeys[c]])
    case Logout(t) => t in s.issued && t.expires >= s.now
    case RefreshCookie(t) =>
      Accepts(s, t) && !MustChangePassword(s, t) && t.issuedAt != 0 && t.authMethod != BySso &&
        s.now - t.issuedAt > SESSION_REFRESH_AFTER
    case CheckChange(t, c) =>
      && Accepts(s, t) && t.authMethod == ByPassword && s.users[t.userId].hasPassword
      && (c == TotpSecret ==> !MustChangePassword(s, t))
    case ChangeCredential(id, c) => (id, c) in s.checkedChanges && id in s.users
    case RegisterPasskey(t) =>
      Accepts(s, t) && !MustChangePassword(s, t) && !IsOidcOnly(s.users[t.userId]) && !IsLinkedSso(t, s.users[t.userId])
    case DeletePasskey(t, c) =>
      && Accepts(s, t) && !MustChangePassword(s, t) && !IsOidcOnly(s.users[t.userId]) &&
          !IsLinkedSso(t, s.users[t.userId])
      && c in s.passkeys && s.passkeys[c] == t.userId
      && !(SessionRole(s, t) == Admin && WouldLockOut(cfg, s, Some(c), None))
    case ConfirmLink(t, i, role, pendingVersion) =>
      IsLocalSession(s, t) && pendingVersion == s.users[t.userId].version && Link(s, t.userId, i, role, true).Some?
    case SelfUnlink(t) =>
      IsLocalSession(s, t) && s.users[t.userId].linked && !WouldUnlinkRemoveLastAdmin(cfg, s, t.userId)
    case CreateUser(t, username, _, _) => IsAdminSession(cfg, s, t) && !UsernameTaken(s, username)
    case PatchUser(t, id, newRole, newDisabled) =>
      && Manages(cfg, s, t, id, true)
      && (PatchLosesAdmin(cfg, s, s.users[id], newRole, newDisabled) ==>
            !IsLastActiveAdmin(cfg, s, id) && !WouldLockOut(cfg, s, None, Some(id)))
    case ResetPassword(t, id, _) => Manages(cfg, s, t, id, true)
    case ResetMfa(t, id) =>
      && Manages(cfg, s, t, id, true)
      && !(s.users[id].role == Admin && !s.users[id].disabled && WouldLockOut(cfg, s, None, Some(id)))
    case AdminUnlink(t, id) =>
      Manages(cfg, s, t, id, true) && s.users[id].linked && !WouldUnlinkRemoveLastAdmin(cfg, s, id)
    case DeleteUser(t, id) =>
      && Manages(cfg, s, t, id, false)
      && !IsLastActiveAdmin(cfg, s, id)
      && !(s.users[id].role == Admin && !s.users[id].disabled && WouldLockOut(cfg, s, None, Some(id)))
    case PutSettings(t, d) => IsAdminSession(cfg, s, t) && !SettingsManaged(cfg, d) && !SettingsWouldLockOut(cfg, s, d)
    case SsoSignIn(i, username, preferred, role, _) =>
      OidcEnabled(s) && SsoAccountFor(cfg, s, i, username, preferred, role).Some?
    case SsoDenied(_) => OidcEnabled(s)
    case VerifyLogout(l) => OidcEnabled(s) && LogoutTokenValid(l, s.now)
    case BackchannelLogout(l) => l in s.verifiedLogouts
  }

  /** What an enabled step does. */
  ghost function Effect(cfg: Config, s: State, e: Event): State
    requires Enabled(cfg, s, e)
  {
    match e
    case Tick(seconds) => s.(now := s.now + seconds)
    case Setup(username) => SignIn(AddUser(s, LocalAccount(s, username, Admin, false)), s.nextUser, ByPassword, None)
    case PasswordLogin(id) => SignIn(s, id, ByPassword, None)
    case PasskeyLogin(c) => SignIn(s, s.passkeys[c], ByPasskey, None)
    case Logout(t) => RevokeSession(s, t)
    case RefreshCookie(t) =>
      s.(issued := s.issued + {NewToken(s, t.userId, t.authMethod, t.authenticatedAt, None, t.session)})
    case CheckChange(t, c) => s.(checkedChanges := s.checkedChanges + {(t.userId, c)})
    case ChangeCredential(id, c) => SignIn(SetUser(s, id, WithNewCredential(s.users[id], c)), id, ByPassword, None)
    case RegisterPasskey(t) => s.(passkeys := s.passkeys[s.nextPasskey := t.userId], nextPasskey := s.nextPasskey + 1)
    case DeletePasskey(_, c) => s.(passkeys := s.passkeys - {c})
    case ConfirmLink(t, i, role, _) => SignIn(Link(s, t.userId, i, role, true).value, t.userId, t.authMethod, None)
    case SelfUnlink(t) => SignIn(SetUser(s, t.userId, Unlinked(s.users[t.userId])), t.userId, t.authMethod, None)
    case CreateUser(_, username, role, changeRequired) => AddUser(s, LocalAccount(s, username, role, changeRequired))
    case PatchUser(_, id, newRole, newDisabled) => SetUser(s, id, Patched(s.users[id], newRole, newDisabled))
    case ResetPassword(_, id, changeRequired) =>
      SetUser(s, id, Bumped(s.users[id]).(hasPassword := true, changeRequired := changeRequired))
    case ResetMfa(_, id) => SetUser(RemovePasskeysOf(s, id), id, Bumped(s.users[id]))
    case AdminUnlink(_, id) => SetUser(s, id, Unlinked(s.users[id]))
    case DeleteUser(_, id) => RemoveUser(s, id)
    case PutSettings(_, d) => s.(settings := Updated(s.settings, d))
    case SsoSignIn(i, username, preferred, role, sid) =>
      var signed := SsoAccountFor(cfg, s, i, username, preferred, role).value;
      SignIn(signed.0, signed.1, BySso, sid)
    case SsoDenied(i) => Deny(s, i)
    case VerifyLogout(l) => s.(verifiedLogouts := s.verifiedLogouts + {l})
    case BackchannelLogout(l) => ApplyLogout(s, l)
  }

  ghost function Next(cfg: Config, s: State, e: Event): State {
    if Enabled(cfg, s, e) then Effect(cfg, s, e) else s
  }

  ghost function Run(cfg: Config, s: State, events: seq<Event>): State
    decreases |events|
  {
    if events == [] then s else Run(cfg, Next(cfg, s, events[0]), events[1..])
  }

  // ----- what a step leaves alone -----

  predicate IsAdminRoute(e: Event) {
    || e.CreateUser? || e.PatchUser? || e.ResetPassword? || e.ResetMfa? || e.AdminUnlink? || e.DeleteUser?
    || e.PutSettings?
  }

  predicate IsHolderRoute(e: Event) {
    || e.CheckChange? || e.ChangeCredential? || e.RegisterPasskey? || e.DeletePasskey? || e.ConfirmLink?
    || e.SelfUnlink?
  }

  /** Outside the accounts and their passkeys, each part of the state has one kind of step that writes it. */
  predicate Frame(s: State, e: Event, s': State) {
    && s.now <= s'.now && (!e.Tick? ==> s'.now == s.now)
    && (!e.PutSettings? ==> s'.settings == s.settings)
    && (!e.Logout? ==> s'.revokedSessions == s.revokedSessions)
    && (!e.VerifyLogout? ==> s'.verifiedLogouts == s.verifiedLogouts)
    && (!e.CheckChange? ==> s'.checkedChanges == s.checkedChanges)
    && (!e.BackchannelLogout? ==>
          && s'.revokedSids == s.revokedSids && s'.logoutVersions == s.logoutVersions
          && s'.processedLogouts == s.processedLogouts)
  }

  lemma AdminRouteFrame(cfg: Config, s: State, e: Event)
    requires IsAdminRoute(e) && Enabled(cfg, s, e)
    ensures Frame(s, e, Effect(cfg, s, e))
  {
  }

  lemma HolderRouteFrame(cfg: Config, s: State, e: Event)
    requires IsHolderRoute(e) && Enabled(cfg, s, e)
    ensures Frame(s, e, Effect(cfg, s, e))
  {
  }

  lemma ProviderFrame(cfg: Config, s: State, e: Event)
    requires IsProviderEvent(e) && Enabled(cfg, s, e)
    ensures Frame(s, e, Effect(cfg, s, e))
  {
  }

  lemma SessionFrame(cfg: Config, s: State, e: Event)
    requires !IsAdminRoute(e) && !IsHolderRoute(e) && !IsProviderEvent(e) && Enabled(cfg, s, e)
    ensures Frame(s, e, Effect(cfg, s, e))
  {
  }

  lemma StepFrame(cfg: Config, s: State, e: Event)
    ensures Frame(s, e, Next(cfg, s, e))
  {
    if Enabled(cfg, s, e) {
      if IsAdminRoute(e) {
        AdminRouteFrame(cfg, s, e);
      } else if IsHolderRoute(e) {
        HolderRouteFrame(cfg, s, e);
      } else if IsProviderEvent(e) {
        ProviderFrame(cfg, s, e);
      } else {
        SessionFrame(cfg, s, e);
      }
    }
  }
}
