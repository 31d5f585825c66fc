/** Dashboard accounts: local users, single sign-on identities, session tokens and the rows that
    revoke them. Signatures, hashes and codes are opaque; an event that needs one only happens
    when it checks out. Times are whole seconds. */
module Accounts {
  import opened Wrappers

  // ----- rows -----

  type UserId = nat

  datatype Role = Admin | ReadOnly
  datatype Provider = PasswordProvider | OidcProvider
  datatype AuthMethod = ByPassword | ByPasskey | BySso

  datatype Identity = Identity(issuer: string, subject: string)

  /** An account row. `linked` stands for a set link time; a null and an empty password hash are
      the same to every reader. */
  datatype User = User(
    username: string, hasPassword: bool, role: Role, provider: Provider, identity: Option<Identity>,
    version: nat, disabled: bool, changeRequired: bool,
    linked: bool, ssoRole: Option<Role>, ssoVersion: nat, autoLinkBlocked: bool)

  /** What a session cookie carries. */
  datatype Token = Token(
    session: nat, userId: UserId, authMethod: AuthMethod, version: nat, authenticatedAt: int,
    sid: Option<string>, logoutVersion: nat, ssoVersion: Option<nat>, issuedAt: int, expires: int)

  /** Effective sign-in settings. */
  datatype Settings = Settings(disablePasswordLogin: bool, issuer: string, clientId: string, autoLink: bool)

  /** A verified back-channel logout token. */
  datatype LogoutToken = LogoutToken(
    issuer: string, subject: Option<string>, sid: Option<string>, tokenId: string, issuedAt: int)

  /** What an account's holder replaces or removes after proving to know it. */
  datatype Credential = PasswordHash | TotpSecret

  /** `verifiedLogouts` holds the logout tokens that passed their checks; one is applied later, when the
      writes before it are done, and once for every delivery. `checkedChanges` holds the credential
      changes that passed theirs and wait for hashes and writes, likewise. */
  datatype State = State(
    users: map<UserId, User>, nextUser: UserId,
    passkeys: map<nat, UserId>, nextPasskey: nat,
    logoutVersions: map<Identity, nat>,
    revokedSids: map<(string, string), int>,
    revokedSessions: map<nat, int>,
    processedLogouts: map<(string, string), int>,
    verifiedLogouts: set<LogoutToken>,
    checkedChanges: set<(UserId, Credential)>,
    settings: Settings, now: int,
    nextSession: nat, issued: set<Token>)

  /** Deployment configuration: a pinned password-login setting, the settings it manages, a
      read-only switch, URL normalisation, and the digest that makes a taken username unique. */
  datatype Config = Config(
    passwordLogin: Option<bool>, managesIssuer: bool, managesClientId: bool, managesAutoLink: bool,
    readOnly: bool, href: string -> Option<string>, suffix: Identity -> string)

  const SESSION_LIFETIME := 60 * 60 * 24 * 30
  const OIDC_SESSION_LIFETIME := 60 * 60 * 24
  const SESSION_REFRESH_AFTER := 60 * 60 * 24
  const LOGOUT_TOKEN_MAX_AGE := 5 * 60
  const INITIAL_LOGOUT_VERSION: nat := 1

  // ----- reading the rows -----

  predicate IsOidcOnly(u: User) { u.provider == OidcProvider && !u.hasPassword }

  function LogoutVersion(s: State, i: Identity): nat {
    if i in s.logoutVersions then s.logoutVersions[i] else INITIAL_LOGOUT_VERSION
  }

  predicate SidRevoked(s: State, issuer: string, sid: string) {
    (issuer, sid) in s.revokedSids && s.revokedSids[(issuer, sid)] > s.now
  }

  predicate SessionRevoked(s: State, session: nat) {
    session in s.revokedSessions && s.revokedSessions[session] > s.now
  }

  predicate OidcEnabled(s: State) { s.settings.issuer != "" && s.settings.clientId != "" }

  predicate IsUsablePasskeyOwner(u: User) {
    u.role == Admin && !u.disabled && (u.provider != OidcProvider || u.hasPassword)
  }

  /** Whether an enabled administrator can still sign in with a passkey, leaving out one
      credential or every credential of one account. */
  predicate HasAdminPasskey(s: State, exceptCredential: Option<nat>, exceptUser: Option<UserId>) {
    exists c <- s.passkeys.Keys ::
      && s.passkeys[c] in s.users && IsUsablePasskeyOwner(s.users[s.passkeys[c]])
      && exceptCredential != Some(c) && exceptUser != Some(s.passkeys[c])
  }

  predicate PasswordLoginDisabled(cfg: Config, s: State) {
    match cfg.passwordLogin
    case Some(enabled) => !enabled && (OidcEnabled(s) || HasAdminPasskey(s, None, None))
    case None => s.settings.disablePasswordLogin
  }

  predicate WouldLockOut(cfg: Config, s: State, exceptCredential: Option<nat>, exceptUser: Option<UserId>) {
    PasswordLoginDisabled(cfg, s) && !OidcEnabled(s) && !HasAdminPasskey(s, exceptCredential, exceptUser)
  }

  predicate IsCurrentIssuer(cfg: Config, s: State, issuer: string) {
    && issuer != "" && OidcEnabled(s)
    && cfg.href(issuer).Some? && cfg.href(issuer) == cfg.href(s.settings.issuer)
  }

  predicate IsActiveAdmin(cfg: Config, s: State, u: User) {
    && !u.disabled
    && (u.role == Admin
        || (u.linked && u.ssoRole == Some(Admin) && u.identity.Some? &&
            IsCurrentIssuer(cfg, s, u.identity.value.issuer)))
  }

  predicate IsLastActiveAdmin(cfg: Config, s: State, id: UserId)
    requires id in s.users
  {
    && IsActiveAdmin(cfg, s, s.users[id])
    && forall other <- s.users.Keys :: other != id ==> !IsActiveAdmin(cfg, s, s.users[other])
  }

  predicate WouldUnlinkRemoveLastAdmin(cfg: Config, s: State, id: UserId)
    requires id in s.users
  {
    s.users[id].role != Admin && IsLastActiveAdmin(cfg, s, id)
  }

  // ----- sessions -----

  predicate IsLinkedSso(t: Token, u: User) { t.authMethod == BySso && u.linked }

  /** The part of the condition for accepting a session that reads the account and its identity's rows. */
  predicate RowAccepts(s: State, t: Token) {
    && t.userId in s.users
    && var u := s.users[t.userId];
    && !u.disabled && t.version == u.version
    && (t.authMethod == BySso ==> u.provider == OidcProvider)
    && (IsLinkedSso(t, u) ==> t.ssoVersion == Some(u.ssoVersion))
    && (t.authMethod == BySso && u.identity.Some? ==>
          if t.sid.Some? then !SidRevoked(s, u.identity.value.issuer, t.sid.value)
          else t.logoutVersion == LogoutVersion(s, u.identity.value))
    && (t.authMethod == ByPasskey ==> !IsOidcOnly(u))
  }

  predicate Expired(s: State, t: Token) {
    || t.expires < s.now
    || (t.authMethod == BySso && (t.issuedAt == 0 || t.issuedAt + OIDC_SESSION_LIFETIME < s.now))
  }

  /** getSession on a token this server signed. */
  predicate Accepts(s: State, t: Token) {
    t in s.issued && !Expired(s, t) && !SessionRevoked(s, t.session) && RowAccepts(s, t)
  }

  /** The access an accepted session has. */
  function SessionRole(s: State, t: Token): Role
    requires t.userId in s.users
  {
    var u := s.users[t.userId];
    if IsLinkedSso(t, u) then (if u.ssoRole == Some(Admin) then Admin else ReadOnly) else u.role
  }

  predicate MustChangePassword(s: State, t: Token)
    requires t.userId in s.users
  {
    t.authMethod == ByPassword && s.users[t.userId].changeRequired
  }

  predicate IsAdminSession(cfg: Config, s: State, t: Token) {
    Accepts(s, t) && !MustChangePassword(s, t) && SessionRole(s, t) == Admin && !cfg.readOnly
  }

  predicate IsLocalSession(s: State, t: Token) {
    Accepts(s, t) && (t.authMethod == ByPassword || t.authMethod == ByPasskey) && !MustChangePassword(s, t)
  }

  /** The token createSession signs for an account. */
  function NewToken(s: State, id: UserId, authMethod: AuthMethod, authenticatedAt: int, sid: Option<string>,
      session: nat): Token
    requires id in s.users
  {
    var u := s.users[id];
    var lifetime := if authMethod == BySso then OIDC_SESSION_LIFETIME else SESSION_LIFETIME;
    Token(session, id, authMethod, u.version, authenticatedAt, sid,
      if authMethod == BySso && sid.None? && u.identity.Some?
      then LogoutVersion(s, u.identity.value) else INITIAL_LOGOUT_VERSION,
      if authMethod == BySso && u.linked then Some(u.ssoVersion) else None,
      s.now,
      if s.now + lifetime < authenticatedAt + lifetime then s.now + lifetime else authenticatedAt + lifetime)
  }

  function SignIn(s: State, id: UserId, authMethod: AuthMethod, sid: Option<string>): State
    requires id in s.users
  {
    s.(nextSession := s.nextSession + 1, issued := s.issued + {NewToken(s, id, authMethod, s.now, sid, s.nextSession)})
  }

  // ----- writing the rows -----

  function SetUser(s: State, id: UserId, u: User): State { s.(users := s.users[id := u]) }

  function AddUser(s: State, u: User): State {
    s.(users := s.users[s.nextUser := u], nextUser := s.nextUser + 1)
  }

  function Bumped(u: User): User { u.(version := u.version + 1) }

  function WithNewCredential(u: User, c: Credential): User {
    if c == PasswordHash then Bumped(u).(hasPassword := true, changeRequired := false) else Bumped(u)
  }

  function RemoveUser(s: State, id: UserId): State {
    s.(users := s.users - {id}, passkeys := map c | c in s.passkeys && s.passkeys[c] != id :: s.passkeys[c])
  }

  function RemovePasskeysOf(s: State, id: UserId): State {
    s.(passkeys := map c | c in s.passkeys && s.passkeys[c] != id :: s.passkeys[c])
  }

  predicate UsernameTaken(s: State, username: string) {
    exists id <- s.users.Keys :: s.users[id].username == username
  }

  ghost predicate Owns(s: State, id: UserId, i: Identity) {
    id in s.users && s.users[id].identity == Some(i)
  }

  ghost function IdentityOwner(s: State, i: Identity): Option<UserId> {
    if id :| Owns(s, id, i) then Some(id) else None
  }

  ghost predicate IsNamed(s: State, id: UserId, username: string) {
    id in s.users && s.users[id].username == username
  }

  ghost function UserNamed(s: State, username: string): Option<UserId> {
    if id :| IsNamed(s, id, username) then Some(id) else None
  }

  function Linked(u: User, i: Identity, role: Role, verified: bool): User {
    u.(provider := OidcProvider, identity := Some(i), ssoRole := Some(role), linked := true,
       autoLinkBlocked := false, version := u.version + (if verified then 1 else 0))
  }

  function Unlinked(u: User): User {
    u.(provider := PasswordProvider, identity := None, ssoRole := None, linked := false,
       autoLinkBlocked := true, version := u.version + 1)
  }

  /** Only accounts and their passkeys differ. */
  predicate SameExceptAccounts(s: State, s': State) {
    s' == s.(users := s'.users, nextUser := s'.nextUser, passkeys := s'.passkeys)
  }

  /** linkOidcIdentity: None when it refuses. A separate account of the identity is merged away. */
  ghost function Link(s: State, id: UserId, i: Identity, role: Role, verified: bool): (r: Option<State>)
    ensures r.Some? ==> SameExceptAccounts(s, r.value) && r.value.nextUser == s.nextUser
  {
    if id !in s.users || !s.users[id].hasPassword || s.users[id].linked then None
    else
      var owner := IdentityOwner(s, i);
      if owner.Some? && owner.value != id then
        if s.users[owner.value].hasPassword || s.users[owner.value].disabled then None
        else Some(SetUser(RemoveUser(s, owner.value), id, Linked(s.users[id], i, role, verified)))
      else Some(SetUser(s, id, Linked(s.users[id], i, role, verified)))
  }

  /** autoLinkOidcUser: the account that was linked, if any. */
  ghost function AutoLink(s: State, i: Identity, username: string, preferred: bool, role: Role)
    : (r: Option<(State, UserId)>)
    ensures r.Some? ==> SameExceptAccounts(s, r.value.0) && r.value.0.nextUser == s.nextUser
    ensures r.Some? ==> r.value.1 in r.value.0.users && r.value.0.users[r.value.1].identity == Some(i)
  {
    if !preferred || !s.settings.autoLink then None
    else
      var owner := IdentityOwner(s, i);
      if owner.Some? && !IsOidcOnly(s.users[owner.value]) then None
      else
        var target := UserNamed(s, username);
        if target.None? then None
        else
          var u := s.users[target.value];
          if !u.hasPassword || u.disabled || u.autoLinkBlocked || u.identity.Some? then None
          else
            var s' := Link(s, target.value, i, role, false);
            if s'.None? then None else Some((s'.value, target.value))
  }

  /** The account an SSO sign-in without a link belongs to: its identity's, or an unclaimed SSO
      account with this username. */
  ghost function UpsertTarget(s: State, i: Identity, username: string): Option<UserId> {
    var owner := IdentityOwner(s, i);
    if owner.Some? then owner
    else
      var legacy := UserNamed(s, username);
      if legacy.Some? && IsOidcOnly(s.users[legacy.value]) && s.users[legacy.value].identity.None? then legacy else None
  }

  function SsoAccount(username: string, role: Role, i: Identity): User {
    User(username, false, role, OidcProvider, Some(i), 1, false, false, false, None, 0, false)
  }

  /** A linked account keeps its local username, role and sessions. */
  function RefreshedLink(u: User, role: Role): User {
    u.(ssoRole := Some(role), ssoVersion := u.ssoVersion + (if u.ssoRole != Some(role) then 1 else 0))
  }

  function RefreshedSso(u: User, username: string, role: Role, i: Identity): User {
    u.(username := username, role := role, provider := OidcProvider, identity := Some(i),
       version := u.version + (if u.role != role then 1 else 0))
  }

  /** The provider's username, made unique when another account has it. */
  ghost function StoredUsername(cfg: Config, s: State, i: Identity, username: string): string {
    var named := UserNamed(s, username);
    if named.None? || named == UpsertTarget(s, i, username) then username else username + "#oidc-" + cfg.suffix(i)
  }

  /** upsertOidcUser: None when the stored username collides and the database refuses the row. */
  ghost function Upsert(cfg: Config, s: State, i: Identity, username: string, role: Role): (r: Option<(State, UserId)>)
    ensures r.Some? ==> SameExceptAccounts(s, r.value.0)
    ensures r.Some? ==> r.value.1 in r.value.0.users && r.value.0.users[r.value.1].identity == Some(i)
  {
    var owner := IdentityOwner(s, i);
    if owner.Some? && s.users[owner.value].linked then
      Some((SetUser(s, owner.value, RefreshedLink(s.users[owner.value], role)), owner.value))
    else
      var target := UpsertTarget(s, i, username);
      var stored := StoredUsername(cfg, s, i, username);
      var holder := UserNamed(s, stored);
      if holder.Some? && holder != target then None
      else if target.None? then Some((AddUser(s, SsoAccount(stored, role, i)), s.nextUser))
      else Some((SetUser(s, target.value, RefreshedSso(s.users[target.value], stored, role, i)), target.value))
  }

  /** Ends the sessions an identity gives, without reaching a linked account's local ones. */
  function EndIdentitySessions(u: User): User {
    if u.linked then u.(ssoVersion := u.ssoVersion + 1) else u.(version := u.version + 1)
  }

  function Denied(u: User): User {
    EndIdentitySessions(u.(role := if u.hasPassword then u.role else ReadOnly, ssoRole := None))
  }

  /** One UPDATE over every row with the identity. */
  function DeniedRows(users: map<UserId, User>, i: Identity): map<UserId, User> {
    map id | id in users :: if users[id].identity == Some(i) then Denied(users[id]) else users[id]
  }

  function RevokedRows(users: map<UserId, User>, i: Identity): map<UserId, User> {
    map id | id in users :: if users[id].identity == Some(i) then EndIdentitySessions(users[id]) else users[id]
  }

  function Deny(s: State, i: Identity): State { s.(users := DeniedRows(s.users, i)) }

  function RevokeIdentity(s: State, i: Identity): State { s.(users := RevokedRows(s.users, i)) }

  function Pruned<K>(rows: map<K, int>, now: int): map<K, int> {
    map k | k in rows && rows[k] > now :: rows[k]
  }

  function RevokeSid(s: State, issuer: string, sid: string): State {
    s.(revokedSids := Pruned(s.revokedSids, s.now)[(issuer, sid) := s.now + OIDC_SESSION_LIFETIME])
  }

  predicate HasOwner(users: map<UserId, User>, i: Identity) {
    exists id <- users.Keys :: users[id].identity == Some(i)
  }

  /** Without an account of the identity there is nothing to insert, and so nothing to update either. */
  function BumpLogoutVersion(s: State, i: Identity): State {
    if HasOwner(s.users, i) then s.(logoutVersions := s.logoutVersions[i := LogoutVersion(s, i) + 1]) else s
  }

  function MarkerExpiry(l: LogoutToken): int { l.issuedAt + LOGOUT_TOKEN_MAX_AGE + 1 }

  predicate LogoutTokenValid(l: LogoutToken, at: int) {
    && l.issuedAt <= at <= l.issuedAt + LOGOUT_TOKEN_MAX_AGE
    && (l.subject.Some? || l.sid.Some?)
  }

  /** Whether this delivery is the one that revokes, rather than a replay. */
  predicate LogoutTakesEffect(s: State, l: LogoutToken) {
    (l.issuer, l.tokenId) !in Pruned(s.processedLogouts, s.now)
  }

  /** Only account rows and revocation rows differ. */
  predicate OnlyRevokes(s: State, s': State) {
    && s' == s.(users := s'.users, logoutVersions := s'.logoutVersions, revokedSids := s'.revokedSids,
                processedLogouts := s'.processedLogouts)
    && s'.users.Keys == s.users.Keys
  }

  function Revoke(s: State, l: LogoutToken): (s': State)
    ensures OnlyRevokes(s, s')
  {
    match l.sid
    case Some(sid) =>
      var s1 := RevokeSid(s, l.issuer, sid);
      if l.subject.Some? then BumpLogoutVersion(s1, Identity(l.issuer, l.subject.value)) else s1
    case None =>
      if l.subject.Some? then RevokeIdentity(s, Identity(l.issuer, l.subject.value)) else s
  }

  function ApplyLogout(s: State, l: LogoutToken): (s': State)
    ensures OnlyRevokes(s, s')
  {
    var rows := Pruned(s.processedLogouts, s.now);
    if !LogoutTakesEffect(s, l) then s.(processedLogouts := rows)
    else Revoke(s.(processedLogouts := rows[(l.issuer, l.tokenId) := MarkerExpiry(l)]), l)
  }
}
