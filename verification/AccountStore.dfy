/** The account tables as an object whose methods read and write them in place. */
module AccountStore {
  import opened Wrappers
  import opened Accounts
  import opened AccountInvariants

  /** What the table's unique indexes enforce. */
  ghost predicate Unique(s: State) {
    && (forall a, b :: a in s.users && b in s.users && s.users[a].username == s.users[b].username ==> a == b)
    && (forall a, b :: a in s.users && b in s.users ==>
          s.users[a].identity.Some? && s.users[a].identity == s.users[b].identity ==> a == b)
    && (forall id :: id in s.users ==> id < s.nextUser)
  }

  lemma IdentityOwnerIs(s: State, i: Identity, id: UserId)
    requires Unique(s) && Owns(s, id, i)
    ensures IdentityOwner(s, i) == Some(id)
  {
  }

  lemma NobodyOwns(s: State, i: Identity)
    requires forall id :: !Owns(s, id, i)
    ensures IdentityOwner(s, i) == None
  {
  }

  lemma UserNamedIs(s: State, username: string, id: UserId)
    requires Unique(s) && IsNamed(s, id, username)
    ensures UserNamed(s, username) == Some(id)
  {
  }

  lemma NobodyNamed(s: State, username: string)
    requires forall id :: !IsNamed(s, id, username)
    ensures UserNamed(s, username) == None
  {
  }

  /** Writing one row keeps the indexes unique when its name and identity are nobody else's. */
  lemma SetUserKeepsUnique(s: State, id: UserId, u: User)
    requires Unique(s) && id < s.nextUser
    requires forall other :: IsNamed(s, other, u.username) ==> other == id
    requires u.identity.Some? ==> forall other :: Owns(s, other, u.identity.value) ==> other == id
    ensures Unique(SetUser(s, id, u))
  {
    var s' := SetUser(s, id, u);
    forall a, b | a in s'.users && b in s'.users && s'.users[a].username == s'.users[b].username ensures a == b {
      assert a == id || b == id || (a in s.users && b in s.users);
      assert a != id && b == id ==> IsNamed(s, a, u.username);
      assert a == id && b != id ==> IsNamed(s, b, u.username);
    }
    forall a, b | a in s'.users && b in s'.users
      && s'.users[a].identity.Some? && s'.users[a].identity == s'.users[b].identity
      ensures a == b
    {
      var i := s'.users[a].identity.value;
      assert a != id ==> Owns(s, a, i);
      assert b != id ==> Owns(s, b, i);
    }
  }

  lemma AddUserKeepsUnique(s: State, u: User)
    requires Unique(s)
    requires forall other :: !IsNamed(s, other, u.username)
    requires u.identity.Some? ==> forall other :: !Owns(s, other, u.identity.value)
    ensures Unique(AddUser(s, u))
  {
    var s1 := s.(nextUser := s.nextUser + 1);
    assert forall other :: IsNamed(s1, other, u.username) ==> IsNamed(s, other, u.username);
    assert u.identity.Some? ==> forall other :: Owns(s1, other, u.identity.value) ==> Owns(s, other, u.identity.value);
    SetUserKeepsUnique(s1, s.nextUser, u);
  }

  /** Rewriting rows without touching names and identities keeps the indexes unique. */
  lemma SameNamesKeepUnique(s: State, s': State)
    requires Unique(s) && s'.users.Keys <= s.users.Keys && s'.nextUser == s.nextUser
    requires forall id :: id in s'.users ==>
             s'.users[id].username == s.users[id].username && s'.users[id].identity == s.users[id].identity
    ensures Unique(s')
  {
  }

  lemma OnlyOwner(s: State, i: Identity, id: UserId)
    requires Unique(s) && (IdentityOwner(s, i) == None || IdentityOwner(s, i) == Some(id))
    ensures forall other :: Owns(s, other, i) ==> other == id
  {
  }

  lemma OnlyNamed(s: State, username: string, id: UserId)
    requires Unique(s) && (UserNamed(s, username) == None || UserNamed(s, username) == Some(id))
    ensures forall other :: IsNamed(s, other, username) ==> other == id
  {
  }

  lemma OwnerExists(s: State, i: Identity)
    ensures HasOwner(s.users, i) <==> IdentityOwner(s, i).Some?
  {
    if HasOwner(s.users, i) {
      var id :| id in s.users.Keys && s.users[id].identity == Some(i);
      assert Owns(s, id, i);
    }
    if IdentityOwner(s, i).Some? {
      assert Owns(s, IdentityOwner(s, i).value, i);
    }
  }

  /** Linking never breaks a unique index. */
  lemma LinkKeepsUnique(s: State, id: UserId, i: Identity, role: Role, verified: bool)
    requires Unique(s) && Link(s, id, i, role, verified).Some?
    ensures Unique(Link(s, id, i, role, verified).value)
  {
    var owner := IdentityOwner(s, i);
    var u := Linked(s.users[id], i, role, verified);
    if owner.Some? && owner.value != id {
      var s1 := RemoveUser(s, owner.value);
      SameNamesKeepUnique(s, s1);
      OnlyOwner(s, i, owner.value);
      assert forall other :: Owns(s1, other, i) ==> Owns(s, other, i);
      SetUserKeepsUnique(s1, id, u);
    } else {
      OnlyOwner(s, i, id);
      SetUserKeepsUnique(s, id, u);
    }
  }

  /** Nor does an SSO sign-in. */
  lemma UpsertKeepsUnique(cfg: Config, s: State, i: Identity, username: string, role: Role)
    requires Unique(s) && Upsert(cfg, s, i, username, role).Some?
    ensures Unique(Upsert(cfg, s, i, username, role).value.0)
  {
    var owner, target := IdentityOwner(s, i), UpsertTarget(s, i, username);
    var stored := StoredUsername(cfg, s, i, username);
    if owner.Some? && s.users[owner.value].linked {
      SameNamesKeepUnique(s, SetUser(s, owner.value, RefreshedLink(s.users[owner.value], role)));
    } else if target.Some? {
      OnlyOwner(s, i, target.value);
      OnlyNamed(s, stored, target.value);
      SetUserKeepsUnique(s, target.value, RefreshedSso(s.users[target.value], stored, role, i));
    } else {
      AddUserKeepsUnique(s, SsoAccount(stored, role, i));
    }
  }

  class AccountTables {
    var users: map<UserId, User>
    var nextUser: UserId
    var passkeys: map<nat, UserId>
    var nextPasskey: nat
    var logoutVersions: map<Identity, nat>
    var revokedSids: map<(string, string), int>
    var revokedSessions: map<nat, int>
    var processedLogouts: map<(string, string), int>
    var settings: Settings
    var now: int
    ghost var verifiedLogouts: set<LogoutToken>
    ghost var checkedChanges: set<(UserId, Credential)>
    ghost var nextSession: nat
    ghost var issued: set<Token>

    /** A fresh installation. */
    constructor (initial: Settings, start: int)
      ensures Valid() && Rows() == Empty(initial, start)
    {
      users, nextUser, passkeys, nextPasskey := map[], 0, map[], 0;
      logoutVersions, revokedSids, revokedSessions, processedLogouts := map[], map[], map[], map[];
      settings, now := initial, start;
      verifiedLogouts, checkedChanges, nextSession, issued := {}, {}, 0, {};
    }

    ghost function Rows(): State reads this {
      State(users, nextUser, passkeys, nextPasskey, logoutVersions, revokedSids, revokedSessions,
        processedLogouts, verifiedLogouts, checkedChanges, settings, now, nextSession, issued)
    }

    ghost predicate Valid() reads this { Unique(Rows()) }

    method GetByIdentity(i: Identity) returns (r: Option<UserId>)
      requires Valid()
      ensures r == IdentityOwner(Rows(), i)
      ensures r.Some? ==> Owns(Rows(), r.value, i)
    {
      var rest := users.Keys;
      while rest != {}
        invariant rest <= users.Keys
        invariant forall id :: id in users.Keys - rest ==> users[id].identity != Some(i)
      {
        var id :| id in rest;
        if users[id].identity == Some(i) {
          IdentityOwnerIs(Rows(), i, id);
          return Some(id);
        }
        rest := rest - {id};
      }
      NobodyOwns(Rows(), i);
      r := None;
    }

    method GetByUsername(username: string) returns (r: Option<UserId>)
      requires Valid()
      ensures r == UserNamed(Rows(), username)
      ensures r.Some? ==> IsNamed(Rows(), r.value, username)
    {
      var rest := users.Keys;
      while rest != {}
        invariant rest <= users.Keys
        invariant forall id :: id in users.Keys - rest ==> users[id].username != username
      {
        var id :| id in rest;
        if users[id].username == username {
          UserNamedIs(Rows(), username, id);
          return Some(id);
        }
        rest := rest - {id};
      }
      NobodyNamed(Rows(), username);
      r := None;
    }

    method DeleteAuthUser(id: UserId)
      requires Valid()
      modifies this`users, this`passkeys
      ensures Valid() && Rows() == RemoveUser(old(Rows()), id)
    {
      passkeys := map c | c in passkeys && passkeys[c] != id :: passkeys[c];
      users := users - {id};
    }

    /** Links an SSO identity to a local account, merging a separate account of the identity. */
    method LinkOidcIdentity(id: UserId, i: Identity, role: Role, verified: bool) returns (linked: bool)
      requires Valid()
      modifies this`users, this`passkeys
      ensures Valid()
      ensures linked <==> Link(old(Rows()), id, i, role, verified).Some?
      ensures Rows() == if linked then Link(old(Rows()), id, i, role, verified).value else old(Rows())
    {
      ghost var before := Rows();
      if Link(before, id, i, role, verified).Some? { LinkKeepsUnique(before, id, i, role, verified); }
      if id !in users || !users[id].hasPassword || users[id].linked {
        return false;
      }
      var target := users[id];
      var owner := GetByIdentity(i);
      if owner.Some? && owner.value != id {
        if users[owner.value].hasPassword || users[owner.value].disabled {
          return false;
        }
        DeleteAuthUser(owner.value);
      }
      users := users[id := Linked(target, i, role, verified)];
      linked := true;
    }

    method AutoLinkOidcUser(i: Identity, username: string, preferred: bool, role: Role) returns (r: Option<UserId>)
      requires Valid()
      modifies this`users, this`passkeys
      ensures Valid()
      ensures r.Some? <==> AutoLink(old(Rows()), i, username, preferred, role).Some?
      ensures r.Some? ==> AutoLink(old(Rows()), i, username, preferred, role) == Some((Rows(), r.value))
      ensures r.None? ==> Rows() == old(Rows())
    {
      if !preferred || !settings.autoLink {
        return None;
      }
      var owner := GetByIdentity(i);
      if owner.Some? && !IsOidcOnly(users[owner.value]) {
        return None;
      }
      var target := GetByUsername(username);
      if target.None? {
        return None;
      }
      var u := users[target.value];
      if !u.hasPassword || u.disabled || u.autoLinkBlocked || u.identity.Some? {
        return None;
      }
      var linked := LinkOidcIdentity(target.value, i, role, false);
      r := if linked then target else None;
    }

    /** The account an SSO sign-in belongs to, and the one its username belongs to. */
    method FindOidcAccount(i: Identity, username: string) returns (user: Option<UserId>, named: Option<UserId>)
      requires Valid()
      ensures user == UpsertTarget(Rows(), i, username) && named == UserNamed(Rows(), username)
      ensures user.Some? ==> user.value in users
    {
      user := GetByIdentity(i);
      named := GetByUsername(username);
      if user.None? && named.Some? {
        var legacy := users[named.value];
        if IsOidcOnly(legacy) && legacy.identity.None? {
          user := named;
        }
      }
    }

    /** The sign-in of an identity that is not linked to a local account. */
    method UpsertUnlinked(cfg: Config, i: Identity, username: string, role: Role) returns (r: Option<UserId>)
      requires Valid()
      requires IdentityOwner(Rows(), i).Some? ==> !users[IdentityOwner(Rows(), i).value].linked
      modifies this`users, this`nextUser
      ensures r.Some? <==> Upsert(cfg, old(Rows()), i, username, role).Some?
      ensures r.Some? ==> Upsert(cfg, old(Rows()), i, username, role) == Some((Rows(), r.value))
      ensures r.None? ==> Rows() == old(Rows())
    {
      var user, usernameOwner := FindOidcAccount(i, username);
      var stored := if usernameOwner.None? || usernameOwner == user then username
        else username + "#oidc-" + cfg.suffix(i);
      assert stored == StoredUsername(cfg, Rows(), i, username);
      var holder := GetByUsername(stored);
      if holder.Some? && holder != user {
        return None;
      }
      if user.None? {
        r := Some(nextUser);
        users := users[nextUser := SsoAccount(stored, role, i)];
        nextUser := nextUser + 1;
      } else {
        r := user;
        users := users[user.value := RefreshedSso(users[user.value], stored, role, i)];
      }
    }

    /** Records an SSO sign-in on its account, claiming or creating one when needed; None when the
        stored username belongs to somebody else and the database refuses it. */
    method UpsertOidcUser(cfg: Config, i: Identity, username: string, role: Role) returns (r: Option<UserId>)
      requires Valid()
      modifies this`users, this`nextUser
      ensures Valid()
      ensures r.Some? <==> Upsert(cfg, old(Rows()), i, username, role).Some?
      ensures r.Some? ==> Upsert(cfg, old(Rows()), i, username, role) == Some((Rows(), r.value))
      ensures r.None? ==> Rows() == old(Rows())
    {
      if Upsert(cfg, Rows(), i, username, role).Some? { UpsertKeepsUnique(cfg, Rows(), i, username, role); }
      var owner := GetByIdentity(i);
      if owner.Some? && users[owner.value].linked {
        users := users[owner.value := RefreshedLink(users[owner.value], role)];
        r := owner;
      } else {
        r := UpsertUnlinked(cfg, i, username, role);
      }
    }

    method DenyOidcIdentity(i: Identity)
      requires Valid()
      modifies this`users
      ensures Valid() && Rows() == Deny(old(Rows()), i)
    {
      SameNamesKeepUnique(Rows(), Deny(Rows(), i));
      users := DeniedRows(users, i);
    }

    method RevokeOidcUserSessions(i: Identity)
      requires Valid()
      modifies this`users
      ensures Valid() && Rows() == RevokeIdentity(old(Rows()), i)
    {
      SameNamesKeepUnique(Rows(), RevokeIdentity(Rows(), i));
      users := RevokedRows(users, i);
    }

    method BumpOidcLogoutVersion(i: Identity)
      requires Valid()
      modifies this`logoutVersions
      ensures Valid() && Rows() == BumpLogoutVersion(old(Rows()), i)
    {
      var owner := GetByIdentity(i);
      OwnerExists(Rows(), i);
      if owner.Some? {
        var version := if i in logoutVersions then logoutVersions[i] else INITIAL_LOGOUT_VERSION;
        logoutVersions := logoutVersions[i := version + 1];
      }
    }

    method RevokeOidcSession(issuer: string, sid: string)
      requires Valid()
      modifies this`revokedSids
      ensures Valid() && Rows() == RevokeSid(old(Rows()), issuer, sid)
    {
      revokedSids := Pruned(revokedSids, now);
      revokedSids := revokedSids[(issuer, sid) := now + OIDC_SESSION_LIFETIME];
    }

    /** Records a logout token and revokes what it names, once. */
    method ApplyOidcLogout(l: LogoutToken)
      requires Valid() && (l.sid.Some? || l.subject.Some?)
      modifies this`users, this`logoutVersions, this`revokedSids, this`processedLogouts
      ensures Valid() && Rows() == ApplyLogout(old(Rows()), l)
    {
      processedLogouts := Pruned(processedLogouts, now);
      if (l.issuer, l.tokenId) in processedLogouts {
        return;
      }
      processedLogouts := processedLogouts[(l.issuer, l.tokenId) := MarkerExpiry(l)];
      if l.sid.Some? {
        RevokeOidcSession(l.issuer, l.sid.value);
        if l.subject.Some? {
          BumpOidcLogoutVersion(Identity(l.issuer, l.subject.value));
        }
      } else {
        RevokeOidcUserSessions(Identity(l.issuer, l.subject.value));
      }
    }
  }
}
