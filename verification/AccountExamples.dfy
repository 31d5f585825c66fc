/** Runs from a fresh installation that show what the exact conditions leave open: a replayed logout that
    ends a later sign-in, a confirmed link that removes the last administrator, and a password set by a
    session that has ended. */
module AccountExamples {
  import opened Wrappers
  import opened Accounts
  import opened AccountSteps
  import opened AccountInvariants
  import opened AccountAccess
  import opened AccountLogout

  // ----- a replayed logout -----

  /** A fresh installation after one SSO sign-in at time `at`, by a user whose token `SsoToken` describes. */
  function OneSsoUser(settings: Settings, at: int, i: Identity, username: string, role: Role): State {
    Empty(settings, at).(users := map[0 := SsoAccount(username, role, i)], nextUser := 1,
                         issued := {SsoToken(0, at, 1)}, nextSession := 1)
  }

  function SsoToken(session: nat, at: int, version: nat): Token {
    Token(session, 0, BySso, version, at, None, INITIAL_LOGOUT_VERSION, None, at, at + OIDC_SESSION_LIFETIME)
  }

  lemma FirstSsoSignIn(cfg: Config, settings: Settings, at: int, i: Identity, username: string, role: Role)
    requires settings.issuer != "" && settings.clientId != ""
    ensures Next(cfg, Empty(settings, at), SsoSignIn(i, username, false, role, None)) ==
            OneSsoUser(settings, at, i, username, role)
  {
    var s, e := Empty(settings, at), SsoSignIn(i, username, false, role, None);
    assert IdentityOwner(s, i) == None && UserNamed(s, username) == None;
    assert AutoLink(s, i, username, false, role).None?;
    assert Enabled(cfg, s, e);
    assert Next(cfg, s, e).users == map[0 := SsoAccount(username, role, i)];
    assert Next(cfg, s, e).issued == {SsoToken(0, at, 1)};
  }

  lemma AnotherSsoSignIn(cfg: Config, s: State, i: Identity, username: string)
    requires OidcEnabled(s) && s.users.Keys == {0}
    requires var u := s.users[0];
             u.identity == Some(i) && u.username == username && u.role == ReadOnly && u.provider == OidcProvider &&
               !u.linked
    ensures var e := SsoSignIn(i, username, false, ReadOnly, None);
            && Enabled(cfg, s, e)
            && Next(cfg, s, e) == SignIn(s, 0, BySso, None)
  {
    assert Owns(s, 0, i) && IsNamed(s, 0, username);
    assert IdentityOwner(s, i) == Some(0) && UserNamed(s, username) == Some(0);
    assert AutoLink(s, i, username, false, ReadOnly).None?;
    assert Upsert(cfg, s, i, username, ReadOnly) == Some((SetUser(s, 0, s.users[0]), 0));
    assert SetUser(s, 0, s.users[0]) == s;
  }

  /** That user after a logout of all their sessions was checked and applied. */
  function LoggedOutSsoUser(settings: Settings, at: int, i: Identity, username: string, l: LogoutToken): State {
    OneSsoUser(settings, at, i, username, ReadOnly).(
      users := map[0 := SsoAccount(username, ReadOnly, i).(version := 2)],
      verifiedLogouts := {l}, processedLogouts := map[(l.issuer, l.tokenId) := MarkerExpiry(l)])
  }

  lemma CheckedLogoutApplied(cfg: Config, settings: Settings, at: int, i: Identity, username: string, l: LogoutToken)
    requires settings.issuer != "" && settings.clientId != ""
    requires l == LogoutToken(i.issuer, Some(i.subject), None, l.tokenId, at)
    ensures var s := OneSsoUser(settings, at, i, username, ReadOnly);
            Next(cfg, Next(cfg, s, VerifyLogout(l)), BackchannelLogout(l)) ==
              LoggedOutSsoUser(settings, at, i, username, l)
  {
    var s := OneSsoUser(settings, at, i, username, ReadOnly);
    var checked := s.(verifiedLogouts := {l});
    assert Next(cfg, s, VerifyLogout(l)) == checked by {
      LogoutChecked(cfg, s, l);
    }
    LogoutApplied(settings, at, i, username, l);
  }

  lemma LogoutChecked(cfg: Config, s: State, l: LogoutToken)
    requires OidcEnabled(s) && LogoutTokenValid(l, s.now) && s.verifiedLogouts == {}
    ensures Next(cfg, s, VerifyLogout(l)) == s.(verifiedLogouts := {l})
  {
  }

  lemma LogoutApplied(settings: Settings, at: int, i: Identity, username: string, l: LogoutToken)
    requires l == LogoutToken(i.issuer, Some(i.subject), None, l.tokenId, at)
    ensures var checked := OneSsoUser(settings, at, i, username, ReadOnly).(verifiedLogouts := {l});
            ApplyLogout(checked, l) == LoggedOutSsoUser(settings, at, i, username, l)
  {
    var checked := OneSsoUser(settings, at, i, username, ReadOnly).(verifiedLogouts := {l});
    assert Pruned(checked.processedLogouts, at) == map[];
    assert RevokedRows(checked.users, i) == map[0 := SsoAccount(username, ReadOnly, i).(version := 2)];
  }

  lemma SecondSignInAccepted(s: State, at: int, i: Identity, username: string)
    requires s.users == map[0 := SsoAccount(username, ReadOnly, i).(version := 2)] && s.now == at > 0
    requires s.logoutVersions == map[] && s.revokedSessions == map[] && s.nextSession == 1
    ensures Accepts(SignIn(s, 0, BySso, None), SsoToken(1, at, 2))
  {
    assert NewToken(s, 0, BySso, at, None, 1) == SsoToken(1, at, 2);
  }

  /** And such a replay does revoke a later sign-in: a user signs in, the provider delivers one logout
      twice in time, the first delivery is applied, the second waits until the marker has expired and the
      user has signed in again. */
  lemma DelayedReplayEndsLaterSignIn(cfg: Config, settings: Settings, at: int, i: Identity, username: string,
      l: LogoutToken)
    requires settings.issuer != "" && settings.clientId != "" && at > 0
    requires l == LogoutToken(i.issuer, Some(i.subject), None, l.tokenId, at)
    ensures var signIn := SsoSignIn(i, username, false, ReadOnly, None);
            var again := Run(cfg, Empty(settings, at),
              [signIn, VerifyLogout(l), BackchannelLogout(l), Tick(LOGOUT_TOKEN_MAX_AGE + 1), signIn]);
            var t := SsoToken(1, at + LOGOUT_TOKEN_MAX_AGE + 1, 2);
            Accepts(again, t) && !Accepts(Next(cfg, again, BackchannelLogout(l)), t)
  {
    var signIn := SsoSignIn(i, username, false, ReadOnly, None);
    var events := [signIn, VerifyLogout(l), BackchannelLogout(l), Tick(LOGOUT_TOKEN_MAX_AGE + 1), signIn];
    var later := at + LOGOUT_TOKEN_MAX_AGE + 1;
    FirstSsoSignIn(cfg, settings, at, i, username, ReadOnly);
    CheckedLogoutApplied(cfg, settings, at, i, username, l);
    var s4 := LoggedOutSsoUser(settings, at, i, username, l).(now := later);
    assert Next(cfg, LoggedOutSsoUser(settings, at, i, username, l), events[3]) == s4;
    AnotherSsoSignIn(cfg, s4, i, username);
    SecondSignInAccepted(s4, later, i, username);
    FiveSteps(cfg, Empty(settings, at), events);
    var s5 := SignIn(s4, 0, BySso, None);
    assert Run(cfg, Empty(settings, at), events) == s5;
    SecondDeliveryEnds(cfg, s5, l, SsoToken(1, later, 2));
  }

  lemma SecondDeliveryEnds(cfg: Config, s: State, l: LogoutToken, t: Token)
    requires Accepts(s, t) && t.authMethod == BySso && l in s.verifiedLogouts && l.sid.None? && l.subject.Some?
    requires s.users[t.userId].identity == Some(Identity(l.issuer, l.subject.value))
    requires s.processedLogouts == map[(l.issuer, l.tokenId) := MarkerExpiry(l)] && s.now >= MarkerExpiry(l)
    ensures !Accepts(Next(cfg, s, BackchannelLogout(l)), t)
  {
    assert LogoutTakesEffect(s, l);
    SubjectLogoutEndsExactly(cfg, s, l, t);
  }

  // ----- the last administrator -----

  /** The SSO administrator has created a read-only account with a password, which has signed in. */
  function AdminAndReader(settings: Settings, at: int, i: Identity, username: string, reader: string): State {
    OneSsoUser(settings, at, i, username, Admin).(
      users := map[0 := SsoAccount(username, Admin, i), 1 := Reader(settings, reader)], nextUser := 2,
      issued := {SsoToken(0, at, 1), ReaderToken(at)}, nextSession := 2)
  }

  function Reader(settings: Settings, reader: string): User {
    User(reader, true, ReadOnly, PasswordProvider, None, 1, false, false, false, None, 0, settings.autoLink)
  }

  function ReaderToken(at: int): Token {
    Token(1, 1, ByPassword, 1, at, None, INITIAL_LOGOUT_VERSION, None, at, at + SESSION_LIFETIME)
  }

  lemma ReaderSignsIn(cfg: Config, settings: Settings, at: int, i: Identity, username: string, reader: string)
    requires settings.issuer != "" && settings.clientId != "" && !settings.disablePasswordLogin && at > 0
    requires cfg.passwordLogin.None? && !cfg.readOnly && reader != username
    ensures var s := OneSsoUser(settings, at, i, username, Admin);
            Next(cfg, Next(cfg, s, CreateUser(SsoToken(0, at, 1), reader, ReadOnly, false)), PasswordLogin(1))
            == AdminAndReader(settings, at, i, username, reader)
  {
    var s, t := OneSsoUser(settings, at, i, username, Admin), SsoToken(0, at, 1);
    assert Accepts(s, t) && IsAdminSession(cfg, s, t);
    assert !UsernameTaken(s, reader);
    var s1 := Next(cfg, s, CreateUser(t, reader, ReadOnly, false));
    assert s1 == AddUser(s, Reader(settings, reader));
    assert s1.users == map[0 := SsoAccount(username, Admin, i), 1 := Reader(settings, reader)];
    assert NewToken(s1, 1, ByPassword, at, None, 1) == ReaderToken(at);
    assert {t} + {ReaderToken(at)} == {t, ReaderToken(at)};
  }

  /** Confirming a link can remove the last administrator: the reader links the identity of the SSO
      administrator, which the provider now calls read-only. */
  lemma LastAdminLinkedAway(cfg: Config, settings: Settings, at: int, i: Identity, username: string, reader: string)
    requires settings.issuer != "" && settings.clientId != "" && !settings.disablePasswordLogin && at > 0
    requires cfg.passwordLogin.None? && !cfg.readOnly && reader != username
    ensures var s := Run(cfg, Empty(settings, at),
              [SsoSignIn(i, username, false, Admin, None), CreateUser(SsoToken(0, at, 1), reader, ReadOnly, false),
               PasswordLogin(1)]);
            var link := ConfirmLink(ReaderToken(at), i, ReadOnly, 1);
            && Inv(s) && HasActiveAdmin(cfg, s)
            && Enabled(cfg, s, link) && !HasActiveAdmin(cfg, Next(cfg, s, link))
  {
    var events := [SsoSignIn(i, username, false, Admin, None), CreateUser(SsoToken(0, at, 1), reader, ReadOnly, false),
      PasswordLogin(1)];
    FirstSsoSignIn(cfg, settings, at, i, username, Admin);
    ReaderSignsIn(cfg, settings, at, i, username, reader);
    ThreeSteps(cfg, Empty(settings, at), events);
    EmptyInv(settings, at);
    RunKeepsInv(cfg, Empty(settings, at), events);
    var s := AdminAndReader(settings, at, i, username, reader);
    assert s == Run(cfg, Empty(settings, at), events);
    LinkTakesTheRest(cfg, settings, at, i, username, reader);
  }

  lemma LinkTakesTheRest(cfg: Config, settings: Settings, at: int, i: Identity, username: string, reader: string)
    requires var s := AdminAndReader(settings, at, i, username, reader); Inv(s) && OidcEnabled(s)
    requires reader != username
    ensures var s := AdminAndReader(settings, at, i, username, reader);
            var link := ConfirmLink(ReaderToken(at), i, ReadOnly, 1);
            && HasActiveAdmin(cfg, s) && Enabled(cfg, s, link) && !HasActiveAdmin(cfg, Next(cfg, s, link))
  {
    var s, t := AdminAndReader(settings, at, i, username, reader), ReaderToken(at);
    assert ActiveAdmin(cfg, s, 0);
    assert Owns(s, 0, i) && !Owns(s, 1, i);
    assert IdentityOwner(s, i) == Some(0);
    assert Accepts(s, t) && IsLocalSession(s, t);
    assert Link(s, 1, i, ReadOnly, true).Some?;
    assert MergedBy(s, 1, i) == {0};
    ConfirmLinkKeepsAdminIff(cfg, s, t, i, ReadOnly, 1);
    assert !AdminBesides(cfg, s, {0});
  }

  // ----- a password set by an ended session -----

  function NextReaderToken(at: int): Token {
    Token(2, 1, ByPassword, 3, at, None, INITIAL_LOGOUT_VERSION, None, at, at + SESSION_LIFETIME)
  }

  /** An administrator resets the reader's password while a change of it, already checked, is still being
      hashed. The reset ends the reader's session and asks for a new password; the change then overwrites
      the one the administrator set, lifts that demand, and signs a token that is accepted. */
  lemma EndedSessionSetsPassword(cfg: Config, settings: Settings, at: int, i: Identity, username: string,
      reader: string)
    requires settings.issuer != "" && settings.clientId != "" && !settings.disablePasswordLogin && at > 0
    requires cfg.passwordLogin.None? && !cfg.readOnly && reader != username
    ensures var s := Run(cfg, Empty(settings, at),
              [SsoSignIn(i, username, false, Admin, None), CreateUser(SsoToken(0, at, 1), reader, ReadOnly, false),
               PasswordLogin(1), CheckChange(ReaderToken(at), PasswordHash),
               ResetPassword(SsoToken(0, at, 1), 1, true)]);
            var s' := Next(cfg, s, ChangeCredential(1, PasswordHash));
            && Inv(s) && 1 in s.users && s.users[1].changeRequired && !Accepts(s, ReaderToken(at))
            && 1 in s'.users && !s'.users[1].changeRequired && Accepts(s', NextReaderToken(at))
  {
    var t, admin := ReaderToken(at), SsoToken(0, at, 1);
    var check, reset := CheckChange(t, PasswordHash), ResetPassword(admin, 1, true);
    var events := [SsoSignIn(i, username, false, Admin, None), CreateUser(admin, reader, ReadOnly, false),
      PasswordLogin(1), check, reset];
    FirstSsoSignIn(cfg, settings, at, i, username, Admin);
    ReaderSignsIn(cfg, settings, at, i, username, reader);
    FiveSteps(cfg, Empty(settings, at), events);
    EmptyInv(settings, at);
    RunKeepsInv(cfg, Empty(settings, at), events[..3]);
    ThreeSteps(cfg, Empty(settings, at), events[..3]);
    var s3 := AdminAndReader(settings, at, i, username, reader);
    assert Run(cfg, Empty(settings, at), events[..3]) == s3;
    ResetDuringChange(cfg, settings, at, i, username, reader);
    StepKeepsInv(cfg, s3, check);
    StepKeepsInv(cfg, Next(cfg, s3, check), reset);
  }

  lemma ResetDuringChange(cfg: Config, settings: Settings, at: int, i: Identity, username: string, reader: string)
    requires !cfg.readOnly && at > 0
    requires Inv(AdminAndReader(settings, at, i, username, reader))
    ensures var check, reset := CheckChange(ReaderToken(at), PasswordHash), ResetPassword(SsoToken(0, at, 1), 1, true);
            var s := Next(cfg, Next(cfg, AdminAndReader(settings, at, i, username, reader), check), reset);
            var s' := Next(cfg, s, ChangeCredential(1, PasswordHash));
            && 1 in s.users && s.users[1].changeRequired && !Accepts(s, ReaderToken(at))
            && 1 in s'.users && !s'.users[1].changeRequired && Accepts(s', NextReaderToken(at))
  {
    var s, t, reset :=
      AdminAndReader(settings, at, i, username, reader), ReaderToken(at), ResetPassword(SsoToken(0, at, 1), 1, true);
    ReaderChecks(cfg, settings, at, i, username, reader);
    var s1 := Next(cfg, s, CheckChange(t, PasswordHash));
    ReaderReset(cfg, s1, settings, at, i, username, reader);
    var s2 := Next(cfg, s1, reset);
    assert Run(cfg, s1, [reset]) == s2 by {
      assert [reset][1..] == [];
    }
    CheckedChangeTakesEffectIff(cfg, s, t, PasswordHash, [reset]);
    ReaderTokenAfter(Next(cfg, s2, ChangeCredential(1, PasswordHash)), at);
  }

  lemma ReaderChecks(cfg: Config, settings: Settings, at: int, i: Identity, username: string, reader: string)
    ensures var s, e := AdminAndReader(settings, at, i, username, reader), CheckChange(ReaderToken(at), PasswordHash);
            Enabled(cfg, s, e) && Next(cfg, s, e) == s.(checkedChanges := {(1, PasswordHash)})
  {
    var s := AdminAndReader(settings, at, i, username, reader);
    assert Accepts(s, ReaderToken(at));
    assert {} + {(1, PasswordHash)} == {(1, PasswordHash)};
  }

  lemma ReaderReset(cfg: Config, s: State, settings: Settings, at: int, i: Identity, username: string, reader: string)
    requires !cfg.readOnly && at > 0
    requires s == AdminAndReader(settings, at, i, username, reader).(checkedChanges := {(1, PasswordHash)})
    ensures var s' := Next(cfg, s, ResetPassword(SsoToken(0, at, 1), 1, true));
            && s' == SetUser(s, 1, Reader(settings, reader).(version := 2, changeRequired := true))
            && !Accepts(s', ReaderToken(at))
  {
    assert Accepts(s, SsoToken(0, at, 1)) && IsAdminSession(cfg, s, SsoToken(0, at, 1));
  }

  lemma ReaderTokenAfter(s: State, at: int)
    requires 1 in s.users && s.users[1].version == 3 && s.now == at
    ensures NewToken(s, 1, ByPassword, at, None, 2) == NextReaderToken(at)
  {
  }

  // ----- short runs -----

  lemma RunDrops(cfg: Config, s: State, e: seq<Event>, k: nat)
    requires k < |e|
    ensures Run(cfg, s, e[k..]) == Run(cfg, Next(cfg, s, e[k]), e[k + 1..])
  {
    assert e[k..][1..] == e[k + 1..];
  }

  lemma FiveSteps(cfg: Config, s: State, e: seq<Event>)
    requires |e| == 5
    ensures Run(cfg, s, e) == Next(cfg, Next(cfg, Next(cfg, Next(cfg, Next(cfg, s, e[0]), e[1]), e[2]), e[3]), e[4])
  {
    var s1 := Next(cfg, s, e[0]);
    var s2 := Next(cfg, s1, e[1]);
    var s3 := Next(cfg, s2, e[2]);
    var s4 := Next(cfg, s3, e[3]);
    assert e == e[0..];
    RunDrops(cfg, s, e, 0);
    RunDrops(cfg, s1, e, 1);
    RunDrops(cfg, s2, e, 2);
    RunDrops(cfg, s3, e, 3);
    RunDrops(cfg, s4, e, 4);
    assert e[5..] == [];
  }

  lemma ThreeSteps(cfg: Config, s: State, e: seq<Event>)
    requires |e| == 3
    ensures Run(cfg, s, e) == Next(cfg, Next(cfg, Next(cfg, s, e[0]), e[1]), e[2])
  {
    var s1 := Next(cfg, s, e[0]);
    var s2 := Next(cfg, s1, e[1]);
    assert e == e[0..];
    RunDrops(cfg, s, e, 0);
    RunDrops(cfg, s1, e, 1);
    RunDrops(cfg, s2, e, 2);
    assert e[3..] == [];
  }
}
