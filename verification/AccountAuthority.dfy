/** Who may change what: the access a session has by the rows, the steps that need it, and how an account
    comes to it. */
module AccountAuthority {
  import opened Wrappers
  import opened Accounts
  import opened AccountSteps
  import opened AccountInvariants
  import opened AccountSessions

  // ----- access by the rows -----

  /** An SSO session of a linked account has the provider's role, any other session the account's own. */
  predicate HasAdminAccess(s: State, t: Token) {
    && t.userId in s.users
    && var u := s.users[t.userId];
       if t.authMethod == BySso && u.linked then u.ssoRole == Some(Admin) else u.role == Admin
  }

  /** An accepted session with that access, which need not change its password first, where changes are
      allowed at all. */
  predicate IsAdministrator(cfg: Config, s: State, t: Token) {
    && Accepts(s, t) && HasAdminAccess(s, t) && !cfg.readOnly
    && !(t.authMethod == ByPassword && s.users[t.userId].changeRequired)
  }

  /** The session a route acts for. */
  function ActingToken(e: Event): Option<Token> {
    match e
    case Logout(t) => Some(t)
    case RefreshCookie(t) => Some(t)
    case CheckChange(t, _) => Some(t)
    case RegisterPasskey(t) => Some(t)
    case DeletePasskey(t, _) => Some(t)
    case ConfirmLink(t, _, _, _) => Some(t)
    case SelfUnlink(t) => Some(t)
    case CreateUser(t, _, _, _) => Some(t)
    case PatchUser(t, _, _, _) => Some(t)
    case ResetPassword(t, _, _) => Some(t)
    case ResetMfa(t, _) => Some(t)
    case AdminUnlink(t, _) => Some(t)
    case DeleteUser(t, _) => Some(t)
    case PutSettings(t, _) => Some(t)
    case _ => None
  }

  ghost predicate SameRow(s: State, s': State, id: UserId) {
    (id in s.users <==> id in s'.users) && (id in s.users ==> s'.users[id] == s.users[id])
  }

  ghost predicate SamePasskeys(s: State, s': State, id: UserId) {
    forall c :: (c in s.passkeys && s.passkeys[c] == id) <==> (c in s'.passkeys && s'.passkeys[c] == id)
  }

  ghost predicate SameAccount(s: State, s': State, id: UserId) {
    SameRow(s, s', id) && SamePasskeys(s, s', id)
  }

  // ----- only administrators reach other accounts -----

  /** Confirming a link merges away the account that has the identity and no password. */
  predicate MergesAway(s: State, e: Event, id: UserId) {
    e.ConfirmLink? && id in s.users && s.users[id].identity == Some(e.identity) && !s.users[id].hasPassword
  }

  lemma AdminRouteNeedsAdministrator(cfg: Config, s: State, e: Event)
    requires IsAdminRoute(e) && Enabled(cfg, s, e)
    ensures ActingToken(e).Some? && IsAdministrator(cfg, s, ActingToken(e).value)
  {
  }

  lemma HolderRouteReaches(cfg: Config, s: State, e: Event, id: UserId)
    requires AccountsCoherent(s) && PasskeysOk(s) && IsHolderRoute(e) && Enabled(cfg, s, e)
    requires !SameAccount(s, Effect(cfg, s, e), id)
    ensures MergesAway(s, e, id) || (e.ChangeCredential? && e.id == id && (id, e.credential) in s.checkedChanges)
         || (ActingToken(e).Some? && ActingToken(e).value.userId == id && Accepts(s, ActingToken(e).value))
  {
    if e.ConfirmLink? {
      if id != e.token.userId {
        LinkReaches(s, e.token.userId, e.identity, e.role, id);
      }
    } else {
      OwnRouteReaches(cfg, s, e, id);
    }
  }

  lemma OwnRouteReaches(cfg: Config, s: State, e: Event, id: UserId)
    requires PasskeysOk(s) && IsHolderRoute(e) && !e.ConfirmLink? && Enabled(cfg, s, e)
    requires !SameAccount(s, Effect(cfg, s, e), id)
    ensures (e.ChangeCredential? && e.id == id && (id, e.credential) in s.checkedChanges)
         || (ActingToken(e).Some? && ActingToken(e).value.userId == id && Accepts(s, ActingToken(e).value))
  {
  }

  lemma LinkReaches(s: State, id: UserId, i: Identity, role: Role, other: UserId)
    requires Link(s, id, i, role, true).Some? && other != id
    ensures !(other in s.users && s.users[other].identity == Some(i) && !s.users[other].hasPassword) ==>
              SameAccount(s, Link(s, id, i, role, true).value, other)
  {
  }

  lemma SessionStepReaches(cfg: Config, s: State, e: Event, id: UserId)
    requires !IsAdminRoute(e) && !IsHolderRoute(e) && !IsProviderEvent(e) && Enabled(cfg, s, e)
    requires !SameAccount(s, Effect(cfg, s, e), id)
    ensures e.Setup? && s.users == map[]
  {
  }

  /** Whoever is not the first account, the identity provider or the account's own holder, by a session or
      by a change that was checked, reaches an account only as an administrator, or by merging it away. */
  lemma OnlyAdministratorsReachOthers(cfg: Config, s: State, e: Event, id: UserId)
    requires Inv(s) && !SameAccount(s, Next(cfg, s, e), id)
    ensures || (e.Setup? && s.users == map[])
            || IsProviderEvent(e)
            || MergesAway(s, e, id)
            || (e.ChangeCredential? && e.id == id && (id, e.credential) in s.checkedChanges)
            || (ActingToken(e).Some? && ActingToken(e).value.userId == id && Accepts(s, ActingToken(e).value))
            || (ActingToken(e).Some? && IsAdministrator(cfg, s, ActingToken(e).value))
  {
    if IsAdminRoute(e) {
      AdminRouteNeedsAdministrator(cfg, s, e);
    } else if IsHolderRoute(e) {
      HolderRouteReaches(cfg, s, e, id);
    } else if !IsProviderEvent(e) {
      SessionStepReaches(cfg, s, e, id);
    }
  }

  /** Settings change by an administrator alone. */
  lemma OnlyAdministratorsChangeSettings(cfg: Config, s: State, e: Event)
    requires Next(cfg, s, e).settings != s.settings
    ensures e.PutSettings? && IsAdministrator(cfg, s, e.token)
  {
    StepFrame(cfg, s, e);
    AdminRouteNeedsAdministrator(cfg, s, e);
  }

  // ----- how an account comes to administrator access -----

  /** No session of the account has administrator access. */
  ghost predicate IsReadOnly(s: State, id: UserId) {
    id < s.nextUser && (id in s.users ==> s.users[id].role == ReadOnly && s.users[id].ssoRole != Some(Admin))
  }

  /** An administrator makes the account one, or the provider grants the role to it: at a sign-in of its
      identity or under its username, or in a link its holder confirms. */
  predicate MayGrant(cfg: Config, s: State, e: Event, id: UserId) {
    || (e.PatchUser? && e.id == id && e.newRole == Some(Admin) && IsAdministrator(cfg, s, e.token))
    || (e.ConfirmLink? && e.token.userId == id && e.role == Admin)
    || (e.SsoSignIn? && e.role == Admin && id in s.users
        && (s.users[id].identity == Some(e.identity) || s.users[id].username == e.username))
  }

  lemma AdminRouteKeepsReadOnly(cfg: Config, s: State, e: Event, id: UserId)
    requires IsReadOnly(s, id) && IsAdminRoute(e) && Enabled(cfg, s, e) && !MayGrant(cfg, s, e, id)
    ensures IsReadOnly(Effect(cfg, s, e), id)
  {
    AdminRouteNeedsAdministrator(cfg, s, e);
    var s' := Effect(cfg, s, e);
    if e.PatchUser? && e.id != id {
      assert s'.users == s.users[e.id := s'.users[e.id]];
    } else if e.ResetPassword? || e.ResetMfa? {
      WrittenRowKeepsReadOnly(s, s', e.id, s'.users[e.id], id);
    } else if e.AdminUnlink? {
      WrittenRowKeepsReadOnly(s, s', e.id, Unlinked(s.users[e.id]), id);
    }
  }

  lemma HolderRouteKeepsReadOnly(cfg: Config, s: State, e: Event, id: UserId)
    requires IsReadOnly(s, id) && IsHolderRoute(e) && Enabled(cfg, s, e) && !MayGrant(cfg, s, e, id)
    ensures IsReadOnly(Effect(cfg, s, e), id)
  {
    var s' := Effect(cfg, s, e);
    if e.ChangeCredential? {
      WrittenRowKeepsReadOnly(s, s', e.id, WithNewCredential(s.users[e.id], e.credential), id);
    } else if e.SelfUnlink? {
      WrittenRowKeepsReadOnly(s, s', e.token.userId, Unlinked(s.users[e.token.userId]), id);
    } else if e.ConfirmLink? {
      LinkKeepsReadOnly(s, e.token.userId, e.identity, e.role, id);
    } else {
      QuietKeepsUsers(cfg, s, e);
    }
  }

  lemma WrittenRowKeepsReadOnly(s: State, s': State, x: UserId, u: User, id: UserId)
    requires IsReadOnly(s, id) && x in s.users && s'.users == s.users[x := u] && s'.nextUser == s.nextUser
    requires u.role == s.users[x].role && (u.ssoRole == s.users[x].ssoRole || u.ssoRole == None)
    ensures IsReadOnly(s', id)
  {
  }

  lemma LinkKeepsReadOnly(s: State, x: UserId, i: Identity, role: Role, id: UserId)
    requires IsReadOnly(s, id) && Link(s, x, i, role, true).Some? && (x == id ==> role != Admin)
    ensures IsReadOnly(Link(s, x, i, role, true).value, id)
  {
  }

  lemma SignInKeepsReadOnly(cfg: Config, s: State, e: Event, id: UserId)
    requires AccountsCoherent(s) && IsReadOnly(s, id) && e.SsoSignIn? && Enabled(cfg, s, e) && !MayGrant(cfg, s, e, id)
    ensures IsReadOnly(Effect(cfg, s, e), id)
  {
    if AutoLink(s, e.identity, e.username, e.preferred, e.role).Some? {
      AutoLinkKeepsReadOnly(s, e.identity, e.username, e.preferred, e.role, id);
    } else {
      UpsertKeepsReadOnly(cfg, s, e.identity, e.username, e.role, id);
    }
  }

  /** A sign-in changes the roles of the account it belongs to, which has its identity or its username. */
  lemma AutoLinkKeepsReadOnly(s: State, i: Identity, username: string, preferred: bool, role: Role, id: UserId)
    requires IsReadOnly(s, id) && AutoLink(s, i, username, preferred, role).Some?
    requires id in s.users && s.users[id].username == username ==> role != Admin
    ensures IsReadOnly(AutoLink(s, i, username, preferred, role).value.0, id)
  {
  }

  lemma UpsertKeepsReadOnly(cfg: Config, s: State, i: Identity, username: string, role: Role, id: UserId)
    requires AccountsCoherent(s) && IsReadOnly(s, id) && Upsert(cfg, s, i, username, role).Some?
    requires id in s.users && (s.users[id].identity == Some(i) || s.users[id].username == username) ==> role != Admin
    ensures IsReadOnly(Upsert(cfg, s, i, username, role).value.0, id)
  {
    if id in s.users {
      UpsertRow(cfg, s, i, username, role, id);
      TargetIsNamed(s, i, username, id);
    } else {
      UpsertAddsOne(cfg, s, i, username, role, id);
    }
    assert Upsert(cfg, s, i, username, role).value.0.nextUser >= s.nextUser;
  }

  lemma TargetIsNamed(s: State, i: Identity, username: string, id: UserId)
    requires id in s.users
    ensures IdentityOwner(s, i) == Some(id) ==> s.users[id].identity == Some(i)
    ensures UpsertTarget(s, i, username) == Some(id) ==>
            s.users[id].identity == Some(i) || s.users[id].username == username
  {
  }

  lemma UpsertAddsOne(cfg: Config, s: State, i: Identity, username: string, role: Role, id: UserId)
    requires Upsert(cfg, s, i, username, role).Some? && id !in s.users && id < s.nextUser
    ensures id !in Upsert(cfg, s, i, username, role).value.0.users
  {
  }

  lemma OtherStepKeepsReadOnly(cfg: Config, s: State, e: Event, id: UserId)
    requires IsReadOnly(s, id) && Enabled(cfg, s, e)
    requires !IsAdminRoute(e) && !IsHolderRoute(e) && !e.SsoSignIn?
    ensures IsReadOnly(Effect(cfg, s, e), id)
  {
    if IsQuiet(e) {
      QuietKeepsUsers(cfg, s, e);
    } else if e.BackchannelLogout? {
      LogoutUsers(s, e.logout);
    } else {
      assert e.Setup? || e.SsoDenied?;
    }
  }

  lemma StepKeepsReadOnly(cfg: Config, s: State, e: Event, id: UserId)
    requires Inv(s) && IsReadOnly(s, id) && !MayGrant(cfg, s, e, id)
    ensures IsReadOnly(Next(cfg, s, e), id)
  {
    if Enabled(cfg, s, e) {
      if IsAdminRoute(e) {
        AdminRouteKeepsReadOnly(cfg, s, e, id);
      } else if IsHolderRoute(e) {
        HolderRouteKeepsReadOnly(cfg, s, e, id);
      } else if e.SsoSignIn? {
        SignInKeepsReadOnly(cfg, s, e, id);
      } else {
        OtherStepKeepsReadOnly(cfg, s, e, id);
      }
    }
  }

  ghost predicate NothingGrants(cfg: Config, s: State, events: seq<Event>, id: UserId)
    decreases |events|
  {
    events != [] ==> !MayGrant(cfg, s, events[0], id) && NothingGrants(cfg, Next(cfg, s, events[0]), events[1..], id)
  }

  lemma {:induction false} RunKeepsReadOnly(cfg: Config, s: State, events: seq<Event>, id: UserId)
    requires Inv(s) && IsReadOnly(s, id) && NothingGrants(cfg, s, events, id)
    ensures IsReadOnly(Run(cfg, s, events), id)
    decreases |events|
  {
    if events != [] {
      StepKeepsInv(cfg, s, events[0]);
      StepKeepsReadOnly(cfg, s, events[0], id);
      RunKeepsReadOnly(cfg, Next(cfg, s, events[0]), events[1..], id);
    }
  }

  /** Over any run, a read-only account to which no administrator and no provider grants the role never
      holds a session with administrator access. */
  lemma ReadOnlyNeverBecomesAdmin(cfg: Config, s: State, events: seq<Event>, t: Token)
    requires Inv(s) && IsReadOnly(s, t.userId) && NothingGrants(cfg, s, events, t.userId)
    ensures var s' := Run(cfg, s, events); !(Accepts(s', t) && HasAdminAccess(s', t)) && !IsAdministrator(cfg, s', t)
  {
    RunKeepsReadOnly(cfg, s, events, t.userId);
  }

  // ----- what the provider says about access -----

  /** A sign-in issues an SSO session of an account with its identity, with exactly the access the provider
      gave. */
  lemma SignInGivesProviderRole(cfg: Config, s: State, e: Event) returns (t: Token)
    requires Inv(s) && e.SsoSignIn? && Enabled(cfg, s, e)
    ensures var s' := Next(cfg, s, e);
            && s'.issued == s.issued + {t} && t.authMethod == BySso && t.sid == e.sid
            && t.authenticatedAt == t.issuedAt == s.now && t.expires == s.now + 86400
            && t.userId in s'.users && s'.users[t.userId].identity == Some(e.identity)
            && (HasAdminAccess(s', t) <==> e.role == Admin)
  {
    var signed := SsoAccountFor(cfg, s, e.identity, e.username, e.preferred, e.role).value;
    t := NewToken(signed.0, signed.1, BySso, s.now, e.sid, s.nextSession);
    SignedAccountHasRole(cfg, s, e.identity, e.username, e.preferred, e.role);
  }

  lemma SignedAccountHasRole(cfg: Config, s: State, i: Identity, username: string, preferred: bool, role: Role)
    requires AccountsCoherent(s) && SsoAccountFor(cfg, s, i, username, preferred, role).Some?
    ensures var r := SsoAccountFor(cfg, s, i, username, preferred, role).value;
            var u := r.0.users[r.1];
            if u.linked then u.ssoRole == Some(role) else u.role == role
  {
    if AutoLink(s, i, username, preferred, role).None? {
      UpsertedHasRole(cfg, s, i, username, role);
    }
  }

  lemma UpsertedHasRole(cfg: Config, s: State, i: Identity, username: string, role: Role)
    requires AccountsCoherent(s) && Upsert(cfg, s, i, username, role).Some?
    ensures var r := Upsert(cfg, s, i, username, role).value;
            var u := r.0.users[r.1];
            if u.linked then u.ssoRole == Some(role) else u.role == role
  {
    var owner, target := IdentityOwner(s, i), UpsertTarget(s, i, username);
    if !(owner.Some? && s.users[owner.value].linked) && target.Some? {
      assert !s.users[target.value].linked;
    }
  }

  /** A denial takes the provider's role from every account of the identity, and leaves read-only access to
      those without a password; the own role of the others stays. */
  lemma DenialTakesRole(cfg: Config, s: State, i: Identity, id: UserId)
    requires Enabled(cfg, s, SsoDenied(i)) && id in s.users
    ensures var u, u' := s.users[id], Next(cfg, s, SsoDenied(i)).users[id];
            if u.identity == Some(i)
            then u'.ssoRole == None && u'.role == (if u.hasPassword then u.role else ReadOnly)
            else u' == u
  {
  }
}
