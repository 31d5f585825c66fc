/** Nobody can be locked out of administration: neither by taking away the last way to sign in nor
    by taking away the last administrator. */
module AccountAccess {
  import opened Wrappers
  import opened Accounts
  import opened AccountSteps
  import opened AccountInvariants

  // ----- some way to sign in remains -----

  /** Password login is on, or OIDC is configured, or an enabled administrator has a passkey. */
  predicate SignInPossible(cfg: Config, s: State) {
    !PasswordLoginDisabled(cfg, s) || OidcEnabled(s) || HasAdminPasskey(s, None, None)
  }

  predicate UsablePasskey(s: State, c: nat) {
    c in s.passkeys && s.passkeys[c] in s.users && IsUsablePasskeyOwner(s.users[s.passkeys[c]])
  }

  lemma UsablePasskeySuffices(s: State, c: nat)
    requires UsablePasskey(s, c)
    ensures HasAdminPasskey(s, None, None)
  {
    assert c in s.passkeys.Keys;
  }

  lemma SomeUsablePasskey(s: State, exceptCredential: Option<nat>, exceptUser: Option<UserId>) returns (c: nat)
    requires HasAdminPasskey(s, exceptCredential, exceptUser)
    ensures UsablePasskey(s, c) && exceptCredential != Some(c) && exceptUser != Some(s.passkeys[c])
  {
    c :| c in s.passkeys.Keys
      && s.passkeys[c] in s.users && IsUsablePasskeyOwner(s.users[s.passkeys[c]])
      && exceptCredential != Some(c) && exceptUser != Some(s.passkeys[c]);
  }

  /** The hard case of every administrator route: a usable passkey must survive. */
  lemma PatchKeepsPasskey(cfg: Config, s: State, e: Event)
    requires Enabled(cfg, s, e) && e.PatchUser?
    requires HasAdminPasskey(s, None, None) && PasswordLoginDisabled(cfg, s) && !OidcEnabled(s)
    ensures HasAdminPasskey(Effect(cfg, s, e), None, None)
  {
    var c := SomeUsablePasskey(s, None, None);
    var u := s.users[e.id];
    if PatchLosesAdmin(cfg, s, u, e.newRole, e.newDisabled) {
      c := SomeUsablePasskey(s, None, Some(e.id));
    } else if s.passkeys[c] == e.id {
      PatchKeepsOwner(cfg, s, u, e.newRole, e.newDisabled);
    }
    PatchedRowKeepsPasskey(s, e.id, Patched(u, e.newRole, e.newDisabled), c);
    UsablePasskeySuffices(Effect(cfg, s, e), c);
  }

  lemma PatchKeepsOwner(cfg: Config, s: State, u: User, newRole: Option<Role>, newDisabled: Option<bool>)
    requires IsUsablePasskeyOwner(u) && !PatchLosesAdmin(cfg, s, u, newRole, newDisabled)
    ensures IsUsablePasskeyOwner(Patched(u, newRole, newDisabled))
  {
  }

  lemma PatchedRowKeepsPasskey(s: State, id: UserId, u: User, c: nat)
    requires UsablePasskey(s, c) && (s.passkeys[c] != id || IsUsablePasskeyOwner(u))
    ensures UsablePasskey(SetUser(s, id, u), c)
  {
  }

  lemma RemovalKeepsPasskey(cfg: Config, s: State, e: Event)
    requires Enabled(cfg, s, e) && (e.ResetMfa? || e.DeleteUser?)
    requires HasAdminPasskey(s, None, None) && PasswordLoginDisabled(cfg, s) && !OidcEnabled(s)
    ensures HasAdminPasskey(Effect(cfg, s, e), None, None)
  {
    var c := SomeUsablePasskey(s, None, None);
    if s.passkeys[c] == e.id {
      c := SomeUsablePasskey(s, None, Some(e.id));
    }
    UsablePasskeySuffices(Effect(cfg, s, e), c);
  }

  lemma DeletePasskeyKeepsPasskey(cfg: Config, s: State, e: Event)
    requires Enabled(cfg, s, e) && e.DeletePasskey?
    requires HasAdminPasskey(s, None, None) && PasswordLoginDisabled(cfg, s) && !OidcEnabled(s)
    ensures HasAdminPasskey(Effect(cfg, s, e), None, None)
  {
    var c := SomeUsablePasskey(s, None, None);
    if c == e.passkey {
      c := SomeUsablePasskey(s, Some(c), None);
    }
    UsablePasskeySuffices(Effect(cfg, s, e), c);
  }

  /** A merged account has no usable passkey to lose. */
  lemma ConfirmLinkKeepsPasskey(cfg: Config, s: State, e: Event)
    requires AccountsCoherent(s) && Enabled(cfg, s, e) && e.ConfirmLink?
    requires HasAdminPasskey(s, None, None)
    ensures HasAdminPasskey(Effect(cfg, s, e), None, None)
  {
    var c := SomeUsablePasskey(s, None, None);
    LinkRows(s, e.token.userId, e.identity, e.role, true);
    var merged := MergedBy(s, e.token.userId, e.identity);
    assert s.passkeys[c] !in merged by {
      OwnersOfIdentityAreMerged(s, e.token.userId, e.identity);
    }
    UsablePasskeySuffices(Effect(cfg, s, e), c);
  }

  /** The separate account a link merges away, if any. */
  ghost function MergedBy(s: State, id: UserId, i: Identity): set<UserId> {
    var owner := IdentityOwner(s, i);
    if owner.Some? && owner.value != id then {owner.value} else {}
  }

  lemma OwnersOfIdentityAreMerged(s: State, id: UserId, i: Identity)
    ensures forall x :: x in MergedBy(s, id, i) ==> x in s.users && s.users[x].identity == Some(i) && x != id
  {
  }

  lemma LinkRows(s: State, id: UserId, i: Identity, role: Role, verified: bool)
    requires Link(s, id, i, role, verified).Some?
    ensures var s' := Link(s, id, i, role, verified).value;
            && s.users[id].hasPassword && !s.users[id].linked
            && s'.users == (s.users - MergedBy(s, id, i))[id := Linked(s.users[id], i, role, verified)]
            && s'.passkeys == (map c | c in s.passkeys && s.passkeys[c] !in MergedBy(s, id, i) :: s.passkeys[c])
            && forall x :: x in MergedBy(s, id, i) ==> !s.users[x].hasPassword
  {
  }

  lemma LogoutKeepsPasskey(s: State, l: LogoutToken, c: nat)
    requires UsablePasskey(s, c)
    ensures UsablePasskey(ApplyLogout(s, l), c)
  {
  }

  /** Every remaining step keeps each usable passkey. */
  lemma OtherStepKeepsPasskey(cfg: Config, s: State, e: Event)
    requires AccountsCoherent(s) && PasskeysOk(s) && Enabled(cfg, s, e) && HasAdminPasskey(s, None, None) &&
             !OidcEnabled(s)
    requires !e.PatchUser? && !e.ResetMfa? && !e.DeleteUser? && !e.DeletePasskey? && !e.ConfirmLink?
    ensures HasAdminPasskey(Effect(cfg, s, e), None, None)
  {
    var c := SomeUsablePasskey(s, None, None);
    if e.BackchannelLogout? {
      LogoutKeepsPasskey(s, e.logout, c);
    } else {
      KeepsThisPasskey(cfg, s, e, c);
    }
    UsablePasskeySuffices(Effect(cfg, s, e), c);
  }

  lemma KeepsThisPasskey(cfg: Config, s: State, e: Event, c: nat)
    requires AccountsCoherent(s) && PasskeysOk(s) && Enabled(cfg, s, e) && UsablePasskey(s, c) && !OidcEnabled(s)
    requires !e.PatchUser? && !e.ResetMfa? && !e.DeleteUser? && !e.DeletePasskey? && !e.ConfirmLink? &&
             !e.BackchannelLogout?
    ensures UsablePasskey(Effect(cfg, s, e), c)
  {
    if ChangesOneUser(e) {
      UserChangeKeepsPasskey(cfg, s, e, c);
    } else {
      UsersStayForPasskey(cfg, s, e, c);
    }
  }

  predicate ChangesOneUser(e: Event) {
    e.ChangeCredential? || e.SelfUnlink? || e.ResetPassword? || e.AdminUnlink?
  }

  lemma UserChangeKeepsPasskey(cfg: Config, s: State, e: Event, c: nat)
    requires AccountsCoherent(s) && Enabled(cfg, s, e) && UsablePasskey(s, c) && ChangesOneUser(e)
    ensures UsablePasskey(Effect(cfg, s, e), c)
  {
    var s' := Effect(cfg, s, e);
    match e
    case ChangeCredential(id, credential) =>
      OneRowKeepsPasskey(s, s', id, WithNewCredential(s.users[id], credential), c);
    case SelfUnlink(t) => OneRowKeepsPasskey(s, s', t.userId, Unlinked(s.users[t.userId]), c);
    case ResetPassword(_, id, changeRequired) =>
      OneRowKeepsPasskey(s, s', id, Bumped(s.users[id]).(hasPassword := true, changeRequired := changeRequired), c);
    case AdminUnlink(_, id) => OneRowKeepsPasskey(s, s', id, Unlinked(s.users[id]), c);
  }

  lemma OneRowKeepsPasskey(s: State, s': State, id: UserId, u: User, c: nat)
    requires UsablePasskey(s, c) && s'.passkeys == s.passkeys
    requires id in s.users && s'.users == s.users[id := u]
    requires IsUsablePasskeyOwner(s.users[id]) ==> IsUsablePasskeyOwner(u)
    ensures UsablePasskey(s', c)
  {
  }

  lemma UsersStayForPasskey(cfg: Config, s: State, e: Event, c: nat)
    requires AccountsCoherent(s) && PasskeysOk(s) && Enabled(cfg, s, e) && UsablePasskey(s, c) && !OidcEnabled(s)
    requires !e.PatchUser? && !e.ResetMfa? && !e.DeleteUser? && !e.DeletePasskey? && !e.ConfirmLink? &&
             !e.BackchannelLogout?
    requires !ChangesOneUser(e)
    ensures UsablePasskey(Effect(cfg, s, e), c)
  {
    if IsQuiet(e) {
      QuietStepKeepsPasskey(cfg, s, e, c);
    } else {
      assert e.Setup? || e.CreateUser?;
      AddedUserKeepsPasskey(cfg, s, e, c);
    }
  }

  lemma QuietStepKeepsPasskey(cfg: Config, s: State, e: Event, c: nat)
    requires PasskeysOk(s) && Enabled(cfg, s, e) && UsablePasskey(s, c) && IsQuiet(e) && !e.DeletePasskey?
    ensures UsablePasskey(Effect(cfg, s, e), c)
  {
  }

  lemma AddedUserKeepsPasskey(cfg: Config, s: State, e: Event, c: nat)
    requires AccountsCoherent(s) && Enabled(cfg, s, e) && UsablePasskey(s, c) && (e.Setup? || e.CreateUser?)
    ensures UsablePasskey(Effect(cfg, s, e), c)
  {
  }

  /** No lockout: every route and every provider event keeps some way for an administrator to sign
      in, whether password login is managed in Settings or pinned by configuration. */
  lemma StepKeepsSignInPossible(cfg: Config, s: State, e: Event)
    requires Inv(s) && SignInPossible(cfg, s)
    ensures SignInPossible(cfg, Next(cfg, s, e))
  {
    if e.PutSettings? {
    } else {
      StepFrame(cfg, s, e);
      if Enabled(cfg, s, e) && cfg.passwordLogin.None? && s.settings.disablePasswordLogin && !OidcEnabled(s) {
        if e.PatchUser? {
          PatchKeepsPasskey(cfg, s, e);
        } else if e.ResetMfa? || e.DeleteUser? {
          RemovalKeepsPasskey(cfg, s, e);
        } else if e.DeletePasskey? {
          DeletePasskeyKeepsPasskey(cfg, s, e);
        } else if e.ConfirmLink? {
          ConfirmLinkKeepsPasskey(cfg, s, e);
        } else {
          OtherStepKeepsPasskey(cfg, s, e);
        }
      }
    }
  }

  lemma {:induction false} NoRunLocksOut(cfg: Config, s: State, events: seq<Event>)
    requires Inv(s) && SignInPossible(cfg, s)
    ensures SignInPossible(cfg, Run(cfg, s, events))
    decreases |events|
  {
    if events != [] {
      StepKeepsInv(cfg, s, events[0]);
      StepKeepsSignInPossible(cfg, s, events[0]);
      NoRunLocksOut(cfg, Next(cfg, s, events[0]), events[1..]);
    }
  }

  // ----- some administrator remains -----

  ghost predicate ActiveAdmin(cfg: Config, s: State, id: UserId) {
    id in s.users && IsActiveAdmin(cfg, s, s.users[id])
  }

  ghost predicate HasActiveAdmin(cfg: Config, s: State) {
    exists id :: ActiveAdmin(cfg, s, id)
  }

  /** A change of settings that leaves the configured issuer and client as they are. */
  predicate KeepsIssuer(s: State, d: SettingsUpdate) {
    Or(d.issuer, s.settings.issuer) == s.settings.issuer && Or(d.clientId, s.settings.clientId) == s.settings.clientId
  }

  /** Steps the identity provider is not part of, that keep the issuer and confirm no link. */
  predicate IsInternal(s: State, e: Event) {
    !IsProviderEvent(e) && !e.ConfirmLink? && (e.PutSettings? ==> KeepsIssuer(s, e.update))
  }

  ghost predicate InternalRun(cfg: Config, s: State, events: seq<Event>)
    decreases |events|
  {
    events != [] ==> IsInternal(s, events[0]) && InternalRun(cfg, Next(cfg, s, events[0]), events[1..])
  }

  /** Changing or removing one account that is not the last active administrator, or that stays one. */
  lemma OneAccountKeepsAdmin(cfg: Config, s: State, s': State, id: UserId)
    requires HasActiveAdmin(cfg, s) && id in s.users && s'.settings == s.settings
    requires s'.users - {id} == s.users - {id}
    requires !IsLastActiveAdmin(cfg, s, id) || ActiveAdmin(cfg, s', id)
    ensures HasActiveAdmin(cfg, s')
  {
    var admin :| ActiveAdmin(cfg, s, admin);
    if admin == id && !ActiveAdmin(cfg, s', id) {
      admin :| admin in s.users.Keys && admin != id && IsActiveAdmin(cfg, s, s.users[admin]);
    }
    if admin != id {
      assert admin in s.users - {id} && (s'.users - {id})[admin] == s.users[admin];
    }
    assert ActiveAdmin(cfg, s', admin);
  }

  lemma GuardedRouteKeepsAdmin(cfg: Config, s: State, e: Event)
    requires e.PatchUser? || e.DeleteUser? || e.AdminUnlink? || e.SelfUnlink?
    requires Enabled(cfg, s, e) && HasActiveAdmin(cfg, s)
    ensures HasActiveAdmin(cfg, Effect(cfg, s, e))
  {
    var id, s' := if e.SelfUnlink? then e.token.userId else e.id, Effect(cfg, s, e);
    GuardedRouteRows(cfg, s, e, id);
    if IsLastActiveAdmin(cfg, s, id) {
      GuardedRouteKeepsLast(cfg, s, e, id);
    }
    OneAccountKeepsAdmin(cfg, s, s', id);
  }

  lemma GuardedRouteRows(cfg: Config, s: State, e: Event, id: UserId)
    requires e.PatchUser? || e.DeleteUser? || e.AdminUnlink? || e.SelfUnlink?
    requires Enabled(cfg, s, e) && id == if e.SelfUnlink? then e.token.userId else e.id
    ensures id in s.users && Effect(cfg, s, e).settings == s.settings
    ensures Effect(cfg, s, e).users - {id} == s.users - {id}
  {
  }

  /** On the last administrator such a route is refused, or leaves the right in place. */
  lemma GuardedRouteKeepsLast(cfg: Config, s: State, e: Event, id: UserId)
    requires e.PatchUser? || e.DeleteUser? || e.AdminUnlink? || e.SelfUnlink?
    requires Enabled(cfg, s, e) && id == if e.SelfUnlink? then e.token.userId else e.id
    requires id in s.users && IsLastActiveAdmin(cfg, s, id)
    ensures ActiveAdmin(cfg, Effect(cfg, s, e), id)
  {
    var u, s' := s.users[id], Effect(cfg, s, e);
    GuardedRouteRows(cfg, s, e, id);
    if e.PatchUser? {
      PatchKeepsActive(cfg, s, u, e.newRole, e.newDisabled);
      ActiveIn(cfg, s, s', id, Patched(u, e.newRole, e.newDisabled));
    } else {
      assert !e.DeleteUser?;
      ActiveIn(cfg, s, s', id, Unlinked(u));
    }
  }

  lemma PatchKeepsActive(cfg: Config, s: State, u: User, newRole: Option<Role>, newDisabled: Option<bool>)
    requires IsActiveAdmin(cfg, s, u) && !PatchLosesAdmin(cfg, s, u, newRole, newDisabled)
    ensures IsActiveAdmin(cfg, s, Patched(u, newRole, newDisabled))
  {
  }

  lemma ActiveIn(cfg: Config, s: State, s': State, id: UserId, u: User)
    requires s'.settings == s.settings && id in s'.users && s'.users[id] == u && IsActiveAdmin(cfg, s, u)
    ensures ActiveAdmin(cfg, s', id)
  {
  }

  lemma HarmlessRouteKeepsAdmin(cfg: Config, s: State, e: Event)
    requires Inv(s) && Enabled(cfg, s, e) && IsInternal(s, e)
    requires !e.PatchUser? && !e.DeleteUser? && !e.AdminUnlink? && !e.SelfUnlink?
    requires HasActiveAdmin(cfg, s)
    ensures HasActiveAdmin(cfg, Effect(cfg, s, e))
  {
    var admin :| ActiveAdmin(cfg, s, admin);
    if e.PutSettings? {
      SettingsKeepAdmin(cfg, s, e.update, admin);
    } else {
      StepFrame(cfg, s, e);
      HarmlessRouteKeepsUser(cfg, s, e, admin);
    }
    assert ActiveAdmin(cfg, Effect(cfg, s, e), admin);
  }

  lemma SettingsKeepAdmin(cfg: Config, s: State, d: SettingsUpdate, admin: UserId)
    requires ActiveAdmin(cfg, s, admin) && KeepsIssuer(s, d)
    ensures ActiveAdmin(cfg, s.(settings := Updated(s.settings, d)), admin)
  {
  }

  predicate SameStanding(u: User, u': User) {
    u' == u.(version := u'.version, changeRequired := u'.changeRequired, hasPassword := u'.hasPassword)
  }

  /** None of these steps changes what makes an account an active administrator. */
  lemma HarmlessRouteKeepsUser(cfg: Config, s: State, e: Event, id: UserId)
    requires Inv(s) && Enabled(cfg, s, e) && IsInternal(s, e) && id in s.users
    requires !e.PatchUser? && !e.DeleteUser? && !e.AdminUnlink? && !e.SelfUnlink? && !e.PutSettings?
    ensures id in Effect(cfg, s, e).users && SameStanding(s.users[id], Effect(cfg, s, e).users[id])
  {
    if e.ChangeCredential? || e.ResetPassword? || e.ResetMfa? {
      CredentialRouteKeepsUser(cfg, s, e, id);
    } else {
      assert Effect(cfg, s, e).users == s.users || e.Setup? || e.CreateUser?;
    }
  }

  lemma CredentialRouteKeepsUser(cfg: Config, s: State, e: Event, id: UserId)
    requires Enabled(cfg, s, e) && id in s.users
    requires e.ChangeCredential? || e.ResetPassword? || e.ResetMfa?
    ensures id in Effect(cfg, s, e).users && SameStanding(s.users[id], Effect(cfg, s, e).users[id])
  {
    CredentialRouteRows(cfg, s, e);
    RewrittenRow(s.users, Effect(cfg, s, e).users, e.id, CredentialRow(s.users[e.id], e), id);
  }

  function CredentialRow(u: User, e: Event): (u': User)
    requires e.ChangeCredential? || e.ResetPassword? || e.ResetMfa?
    ensures SameStanding(u, u')
  {
    match e
    case ChangeCredential(_, c) => WithNewCredential(u, c)
    case ResetPassword(_, _, required) => Bumped(u).(hasPassword := true, changeRequired := required)
    case ResetMfa(_, _) => Bumped(u)
  }

  lemma CredentialRouteRows(cfg: Config, s: State, e: Event)
    requires Enabled(cfg, s, e) && (e.ChangeCredential? || e.ResetPassword? || e.ResetMfa?)
    ensures e.id in s.users && Effect(cfg, s, e).users == s.users[e.id := CredentialRow(s.users[e.id], e)]
  {
  }

  lemma RewrittenRow(users: map<UserId, User>, users': map<UserId, User>, x: UserId, u: User, id: UserId)
    requires x in users && id in users && users' == users[x := u] && SameStanding(users[x], u)
    ensures id in users' && SameStanding(users[id], users'[id])
  {
  }

  /** Last administrator: with the configured issuer unchanged, no PATCH, DELETE, administrator unlink
      or self-unlink, nor any other step inside the dashboard, removes the last one. */
  lemma StepKeepsAdmin(cfg: Config, s: State, e: Event)
    requires Inv(s) && HasActiveAdmin(cfg, s) && IsInternal(s, e)
    ensures HasActiveAdmin(cfg, Next(cfg, s, e))
  {
    if Enabled(cfg, s, e) {
      if e.PatchUser? || e.DeleteUser? || e.AdminUnlink? || e.SelfUnlink? {
        GuardedRouteKeepsAdmin(cfg, s, e);
      } else {
        HarmlessRouteKeepsAdmin(cfg, s, e);
      }
    }
  }

  lemma {:induction false} NoRunRemovesLastAdmin(cfg: Config, s: State, events: seq<Event>)
    requires Inv(s) && HasActiveAdmin(cfg, s) && InternalRun(cfg, s, events)
    ensures HasActiveAdmin(cfg, Run(cfg, s, events))
    decreases |events|
  {
    if events != [] {
      StepKeepsInv(cfg, s, events[0]);
      StepKeepsAdmin(cfg, s, events[0]);
      NoRunRemovesLastAdmin(cfg, Next(cfg, s, events[0]), events[1..]);
    }
  }

  /** Confirming a link has no such guard: it merges away the identity's separate account. An
      administrator remains exactly when another account was one, or the link itself grants it. */
  lemma ConfirmLinkKeepsAdminIff(cfg: Config, s: State, t: Token, i: Identity, role: Role, pendingVersion: nat)
    requires Inv(s) && Enabled(cfg, s, ConfirmLink(t, i, role, pendingVersion))
    ensures HasActiveAdmin(cfg, Effect(cfg, s, ConfirmLink(t, i, role, pendingVersion)))
       <==> AdminBesides(cfg, s, MergedBy(s, t.userId, i)) || (role == Admin && IsCurrentIssuer(cfg, s, i.issuer))
  {
    var s', merged := Effect(cfg, s, ConfirmLink(t, i, role, pendingVersion)), MergedBy(s, t.userId, i);
    LinkRows(s, t.userId, i, role, true);
    var granted := role == Admin && IsCurrentIssuer(cfg, s, i.issuer);
    assert ActiveAdmin(cfg, s', t.userId) <==> ActiveAdmin(cfg, s, t.userId) || granted;
    if AdminBesides(cfg, s, merged) {
      var id: nat :| ActiveAdmin(cfg, s, id) && id !in merged;
      assert ActiveAdmin(cfg, s', id);
    }
    if HasActiveAdmin(cfg, s') {
      var id: nat :| ActiveAdmin(cfg, s', id);
      assert id !in merged by { OwnersOfIdentityAreMerged(s, t.userId, i); }
      assert ActiveAdmin(cfg, s, id) || (id == t.userId && granted);
    }
  }

  ghost predicate AdminBesides(cfg: Config, s: State, except: set<UserId>) {
    exists id: nat :: ActiveAdmin(cfg, s, id) && id !in except
  }
}
