/** Access tokens and API keys, the account state they are checked against, and the recovery
    commands that revoke them by raising the account's token version. */
module Credentials {
  import opened Outcomes
  import opened Text

  datatype User = User(email: string, role: string, tenant: Option<int>, active: bool, deleted: bool, version: nat,
                       passwordHash: string, mfaEnabled: bool)

  datatype Tenant = Tenant(active: bool, deleted: bool)

  /** An API key by the hash of its secret. */
  datatype Key = Key(name: string, owner: nat, tenant: nat, role: string, scopes: string, active: bool, deleted: bool,
                     expiresAt: Option<int>, ownerVersion: nat)

  /** The claims of a signed access token; tokens of old releases carry no version. */
  datatype Token = Token(user: nat, role: string, version: Option<nat>, jti: string, expiresAt: int)

  datatype Session = Session(user: nat, tokenHash: string)

  datatype AuditRow = AuditRow(action: string, target: string, at: int)

  datatype Accounts = Accounts(users: map<nat, User>, tenants: map<nat, Tenant>, keys: map<string, Key>,
                               revoked: map<string, int>, sessions: set<Session>, audit: seq<AuditRow>)

  const PLATFORM_SUPER_ADMIN := "platform_super_admin"
  const TENANT_ADMIN := "tenant_admin"
  const TENANT_ROLES: set<string> := {"tenant_admin", "tenant_operator", "tenant_support", "tenant_readonly", "user", "billing"}

  predicate HasTenant(u: User) {
    u.tenant.Some? && u.tenant.value > 0
  }

  /** Whether the account may be given credentials at all. */
  predicate Authorized(u: User) {
    && (u.role == PLATFORM_SUPER_ADMIN || u.role in TENANT_ROLES)
    && (HasTenant(u) <==> u.role != PLATFORM_SUPER_ADMIN)
    && u.active && !u.deleted
  }

  function OwnerTenant(u: User): nat {
    if HasTenant(u) then u.tenant.value else 0
  }

  predicate TokenAccepted(a: Accounts, t: Token, now: int) {
    && now < t.expiresAt
    && (t.jti != "" && t.jti in a.revoked ==> a.revoked[t.jti] <= now)
    && (t.version.Some? ==> t.user in a.users && a.users[t.user].version == t.version.value)
  }

  /** Whether a key row still speaks for its owner. */
  predicate OwnerVouches(users: map<nat, User>, tenants: map<nat, Tenant>, k: Key) {
    && k.owner in users && Authorized(users[k.owner])
    && k.ownerVersion == users[k.owner].version && k.role == users[k.owner].role
    && k.tenant == OwnerTenant(users[k.owner])
    && (k.role != PLATFORM_SUPER_ADMIN ==> k.tenant in tenants && tenants[k.tenant].active && !tenants[k.tenant].deleted)
  }

  predicate Usable(k: Key, now: int) {
    k.active && !k.deleted && !(k.expiresAt.Some? && now > k.expiresAt.value)
  }

  predicate KeyAccepted(a: Accounts, hash: string, now: int, ipAllowed: bool) {
    hash in a.keys && Usable(a.keys[hash], now) && ipAllowed && OwnerVouches(a.users, a.tenants, a.keys[hash])
  }

  /** A key whose owner vouches for it carries his current role and tenant. */
  lemma VouchedKeyIsCurrent(users: map<nat, User>, tenants: map<nat, Tenant>, k: Key)
    requires OwnerVouches(users, tenants, k)
    ensures var u := users[k.owner];
            && u.active && !u.deleted && k.role == u.role && k.ownerVersion == u.version
            && (u.role == PLATFORM_SUPER_ADMIN ==> k.tenant == 0 && !HasTenant(u))
            && (u.role != PLATFORM_SUPER_ADMIN ==> u.tenant == Some(k.tenant) && k.tenant > 0 && tenants[k.tenant].active)
  {
  }

  /** Exactly which accounts may have credentials: those in use, platform administrators without
      a tenant and all other roles with one. */
  lemma AuthorizedExactly(u: User)
    ensures Authorized(u) <==>
              && u.active && !u.deleted
              && if u.role == "platform_super_admin" then !(u.tenant.Some? && u.tenant.value > 0)
                 else u.role in {"tenant_admin", "tenant_operator", "tenant_support", "tenant_readonly", "user", "billing"}
                      && u.tenant.Some? && u.tenant.value > 0
  {
  }

  /** Exactly when a token is accepted. */
  lemma TokenExactly(a: Accounts, t: Token, now: int)
    ensures TokenAccepted(a, t, now) <==>
              && now < t.expiresAt && !(t.jti != "" && t.jti in a.revoked && a.revoked[t.jti] > now)
              && (t.version == None || (t.user in a.users && t.version == Some(a.users[t.user].version)))
  {
  }

  /** Exactly when a key is accepted that has just been stored for an authorized account: for as
      long as it lasts, from an allowed address, if it is the tenant's and that is in order. */
  lemma NewKeyAccepted(a: Accounts, hash: string, k: Key, now: int, ipAllowed: bool)
    requires k.owner in a.users && Authorized(a.users[k.owner]) && k.active && !k.deleted
    requires k.role == a.users[k.owner].role && k.ownerVersion == a.users[k.owner].version
    ensures var u := a.users[k.owner];
            KeyAccepted(a.(keys := a.keys[hash := k]), hash, now, ipAllowed) <==>
              && ipAllowed && (k.expiresAt.None? || now <= k.expiresAt.value)
              && if u.role == "platform_super_admin" then k.tenant == 0
                 else u.tenant == Some(k.tenant) && k.tenant in a.tenants
                      && a.tenants[k.tenant].active && !a.tenants[k.tenant].deleted
  {
    AuthorizedExactly(a.users[k.owner]);
  }

  /** Exactly when a stored key is accepted. */
  lemma KeyExactly(a: Accounts, hash: string, now: int, ipAllowed: bool)
    ensures KeyAccepted(a, hash, now, ipAllowed) <==>
              && hash in a.keys && ipAllowed
              && var k := a.keys[hash];
                 && k.active && !k.deleted && (k.expiresAt.None? || now <= k.expiresAt.value)
                 && k.owner in a.users
                 && var u := a.users[k.owner];
                    && Authorized(u) && k.role == u.role && k.ownerVersion == u.version
                    && if u.role == "platform_super_admin" then k.tenant == 0
                       else u.tenant == Some(k.tenant) && k.tenant in a.tenants
                            && a.tenants[k.tenant].active && !a.tenants[k.tenant].deleted
  {
    if hash in a.keys && a.keys[hash].owner in a.users {
      AuthorizedExactly(a.users[a.keys[hash].owner]);
    }
  }

  // ---------------------------------------------------------------- issuing and checking

  datatype CredentialError = Unauthorized | RoleMismatch | Invalid | KeyExpired | KeyNotFound | KeyDisabled | Duplicate | Database

  class Directory {
    var users: map<nat, User>
    var tenants: map<nat, Tenant>
    var keys: map<string, Key>
    var revoked: map<string, int>
    var sessions: set<Session>
    var audit: seq<AuditRow>

    function State(): Accounts
      reads this
    {
      Accounts(users, tenants, keys, revoked, sessions, audit)
    }

    /** The validated authorization state of an account. */
    method LoadAuthorizationSnapshot(user: nat) returns (snap: Option<User>)
      ensures snap == if user in users && Authorized(users[user]) then Some(users[user]) else None
    {
      if user !in users { return None; }
      var u := users[user];
      if u.role != PLATFORM_SUPER_ADMIN && u.role !in TENANT_ROLES { return None; }
      if u.role == PLATFORM_SUPER_ADMIN {
        if u.tenant.Some? && u.tenant.value > 0 { return None; }
      } else if u.tenant.None? || u.tenant.value <= 0 { return None; }
      if !u.active || u.deleted { return None; }
      snap := Some(u);
    }

    /** An access token for the account as it is now: role and version of one reading. */
    method GenerateAccessTokenForUser(user: nat, jti: string, expiresAt: int)
      returns (r: Result<Token, CredentialError>)
      ensures r.Ok? <==> user in users && Authorized(users[user])
      ensures r.Ok? ==> r.value == Token(user, users[user].role, Some(users[user].version), jti, expiresAt)
      ensures r.Err? ==> r.error == Unauthorized
    {
      var snap := LoadAuthorizationSnapshot(user);
      if snap.None? { return Err(Unauthorized); }
      r := Ok(Token(user, snap.value.role, Some(snap.value.version), jti, expiresAt));
    }

    /** An access token for a role the caller names; an account that cannot be read counts as
        version 0. */
    method GenerateAccessToken(user: nat, role: string, jti: string, expiresAt: int, healthy: bool) returns (t: Token)
      ensures t.user == user && t.role == role && t.jti == jti && t.expiresAt == expiresAt && t.version.Some?
      // Accepted until it is revoked or expires, if the version was read or was never raised.
      ensures forall now :: TokenAccepted(State(), t, now) <==>
                && user in users && (healthy || users[user].version == 0)
                && now < expiresAt && (jti != "" && jti in revoked ==> revoked[jti] <= now)
    {
      var version := 0;
      if healthy && user in users {
        version := users[user].version;
      }
      t := Token(user, role, Some(version), jti, expiresAt);
    }

    /** A revocation store that cannot be read counts as empty; an account that cannot be read
        fails every token with a version. */
    method ValidateAccessToken(t: Token, now: int, revocationsRead: bool, accountRead: bool)
      returns (r: Result<(nat, string), CredentialError>)
      ensures r.Ok? <==>
                && TokenAccepted(if revocationsRead then State() else State().(revoked := map[]), t, now)
                && (accountRead || t.version.None?)
      ensures r.Ok? ==> r.value == (t.user, t.role)
      ensures r.Err? ==> r.error == Invalid
    {
      if now >= t.expiresAt { return Err(Invalid); }
      if t.jti != "" && revocationsRead && t.jti in revoked && revoked[t.jti] > now { return Err(Invalid); }
      if t.version.Some? {
        if !accountRead || t.user !in users || users[t.user].version != t.version.value { return Err(Invalid); }
      }
      r := Ok((t.user, t.role));
    }

    /** Stores a key for the owner's current role. */
    method Generate(hash: string, name: string, user: nat, tenant: nat, role: string, scopes: string,
                    expiresAt: Option<int>, healthy: bool)
      returns (failure: Option<CredentialError>)
      modifies this`keys
      ensures failure == if user !in users || !Authorized(users[user]) then Some(Unauthorized)
                         else if role != users[user].role then Some(RoleMismatch)
                         else if hash in old(keys) then Some(Duplicate)
                         else if !healthy then Some(Database) else None
      ensures keys == if failure.Some? then old(keys)
                      else old(keys)[hash := Key(name, user, tenant, role, scopes, true, false, expiresAt, users[user].version)]
    {
      var snap := LoadAuthorizationSnapshot(user);
      if snap.None? { return Some(Unauthorized); }
      if role != snap.value.role { return Some(RoleMismatch); }
      if hash in keys { return Some(Duplicate); }
      if !healthy { return Some(Database); }
      keys := keys[hash := Key(name, user, tenant, role, scopes, true, false, expiresAt, snap.value.version)];
      failure := None;
    }

    /** Checks the owner of a key row and puts the owner's current role into the answer. */
    method RevalidateOwner(k: Key) returns (r: Option<Key>)
      ensures r == if OwnerVouches(users, tenants, k) then Some(k.(role := users[k.owner].role)) else None
    {
      var snap := LoadAuthorizationSnapshot(k.owner);
      if snap.None? { return None; }
      if k.ownerVersion != snap.value.version { return None; }
      if snap.value.role != k.role { return None; }
      var ownerTenant := if snap.value.tenant.Some? && snap.value.tenant.value > 0 then snap.value.tenant.value else 0;
      if snap.value.role == PLATFORM_SUPER_ADMIN {
        if k.tenant != 0 || ownerTenant != 0 { return None; }
      } else {
        if ownerTenant == 0 || k.tenant != ownerTenant { return None; }
        if ownerTenant !in tenants || tenants[ownerTenant].deleted || !tenants[ownerTenant].active { return None; }
      }
      r := Some(k.(role := snap.value.role));
    }

    method Validate(hash: string, now: int, ipAllowed: bool) returns (r: Result<Key, CredentialError>)
      ensures r.Ok? <==> KeyAccepted(State(), hash, now, ipAllowed)
      ensures r.Ok? ==> r.value == keys[hash] && r.value.role == users[r.value.owner].role
      ensures r.Err? ==>
                r.error == if hash in keys && keys[hash].active && !keys[hash].deleted && !Usable(keys[hash], now)
                           then KeyExpired else Invalid
    {
      if hash !in keys || !keys[hash].active || keys[hash].deleted { return Err(Invalid); }
      var k := keys[hash];
      if k.expiresAt.Some? && now > k.expiresAt.value { return Err(KeyExpired); }
      if !ipAllowed { return Err(Invalid); }
      var vouched := RevalidateOwner(k);
      if vouched.None? { return Err(Invalid); }
      r := Ok(vouched.value);
    }

    /** Replaces a key by a new one for the owner as he is now; the old one is disabled. */
    method Rotate(oldHash: string, newHash: string, user: nat, tenant: nat, role: string, scopes: string,
                  expiresAt: Option<int>, healthy: bool)
      returns (failure: Option<CredentialError>)
      modifies this`keys
      ensures failure == if oldHash !in old(keys) || old(keys)[oldHash].owner != user
                            || old(keys)[oldHash].tenant != tenant || old(keys)[oldHash].deleted
                           then Some(KeyNotFound)
                         else if !old(keys)[oldHash].active then Some(KeyDisabled)
                         else if user !in users || !Authorized(users[user]) then Some(Unauthorized)
                         else if role != users[user].role then Some(RoleMismatch)
                         else if newHash in old(keys) then Some(Duplicate)
                         else if !healthy then Some(Database) else None
      ensures failure.Some? ==> keys == old(keys)
      ensures failure.None? ==>
                keys == old(keys)[newHash := Key(old(keys)[oldHash].name, user, tenant, role, scopes, true, false,
                                                 expiresAt, users[user].version)]
                                 [oldHash := old(keys)[oldHash].(active := false)]
    {
      if oldHash !in keys { return Some(KeyNotFound); }
      var was := keys[oldHash];
      if was.owner != user || was.tenant != tenant || was.deleted { return Some(KeyNotFound); }
      if !was.active { return Some(KeyDisabled); }
      var snap := LoadAuthorizationSnapshot(user);
      if snap.None? { return Some(Unauthorized); }
      if role != snap.value.role { return Some(RoleMismatch); }
      if newHash in keys { return Some(Duplicate); }
      var next := keys[newHash := Key(was.name, user, tenant, role, scopes, true, false, expiresAt, snap.value.version)];
      next := next[oldHash := was.(active := false)];
      if !healthy { return Some(Database); }
      keys := next;
      failure := None;
    }

    // -------------------------------------------------------------- recovery commands

    /** The one account with this address, if it is in use. */
    method LookupExactlyOneUser(email: string) returns (r: Option<nat>)
      ensures r == Sole(users, email)
    {
      var matches := Matches(users, email);
      if |matches| != 1 { return None; }
      var id :| id in matches;
      TheOne(matches, id);
      if !users[id].active || users[id].deleted { return None; }
      r := Some(id);
    }

    /** Sets a new password for an administrator found earlier by address, if the account is
        still the same, and ends all its credentials. */
    method ResetPassword(found: nat, email: string, hash: string, now: int, healthy: bool)
      returns (failure: Option<RecoveryError>)
      modifies this
      ensures failure == if Sole(old(users), email).None? then Some(UserNotFound)
                         else if Sole(old(users), email) != Some(found) || !ResetAllowed(old(users)[found].role)
                           then Some(RoleRejected)
                         else if !healthy then Some(Failed) else None
      ensures failure.Some? ==> State() == old(State())
      ensures failure.None? ==>
                var u := old(users)[found];
                var renewed := u.(passwordHash := hash, version := u.version + 1);
                State() == Bumped(old(State()), found, renewed, "admin.password_reset", now)
    {
      hide Matches, ToLower;
      var again := LookupExactlyOneUser(email);
      if again.None? { return Some(UserNotFound); }
      var id := again.value;
      SoleIsAUser(users, email);
      if id != found || !(users[id].role == PLATFORM_SUPER_ADMIN || users[id].role == TENANT_ADMIN) { return Some(RoleRejected); }
      if !healthy { return Some(Failed); }
      var target := users[id].email;
      users := users[id := users[id].(passwordHash := hash, version := users[id].version + 1)];
      DeleteUserSessions(id);
      audit := audit + [AuditRow("admin.password_reset", target, now)];
      failure := None;
    }

    /** Makes the account found earlier a platform administrator without tenant and second
        factor, and ends all its credentials. */
    method Recover(found: nat, email: string, hash: string, now: int, healthy: bool)
      returns (failure: Option<RecoveryError>)
      modifies this
      ensures failure == if Sole(old(users), email).None? then Some(UserNotFound)
                         else if Sole(old(users), email) != Some(found) || !RecoverAllowed(old(users)[found])
                           then Some(RoleRejected)
                         else if !healthy then Some(Failed) else None
      ensures failure.Some? ==> State() == old(State())
      ensures failure.None? ==>
                var u := old(users)[found];
                var recovered := u.(role := PLATFORM_SUPER_ADMIN, tenant := None, passwordHash := hash,
                                    mfaEnabled := false, version := u.version + 1);
                State() == Bumped(old(State()), found, recovered, "admin.recover", now) && Authorized(recovered)
    {
      hide Matches, ToLower, TrimSpace;
      var again := LookupExactlyOneUser(email);
      if again.None? { return Some(UserNotFound); }
      var id := again.value;
      SoleIsAUser(users, email);
      if id != found || !RecoverAllowed(users[id]) { return Some(RoleRejected); }
      if !healthy { return Some(Failed); }
      var target := users[id].email;
      users := users[id := users[id].(role := PLATFORM_SUPER_ADMIN, tenant := None, passwordHash := hash,
                                      mfaEnabled := false, version := users[id].version + 1)];
      DeleteUserSessions(id);
      audit := audit + [AuditRow("admin.recover", target, now)];
      failure := None;
    }

    /** The command that sets a new password: looks the typed address up, and then the found
        account once more by its address as stored. */
    method RunResetPassword(typed: string, hash: string, now: int, healthy: bool) returns (ok: bool)
      modifies this
      ensures ok <==>
                && healthy && Normalize(typed) != "" && Sole(old(users), Normalize(typed)).Some?
                && var u := old(users)[Sole(old(users), Normalize(typed)).value];
                   ResetAllowed(u.role) && u.email == ToLower(u.email)
      ensures !ok ==> State() == old(State())
      ensures ok ==>
                var id := Sole(old(users), Normalize(typed)).value;
                var u := old(users)[id];
                State() == Bumped(old(State()), id, u.(passwordHash := hash, version := u.version + 1), "admin.password_reset", now)
    {
      hide Sole, Normalize;
      var email := Normalize(typed);
      if email == "" { return false; }
      var found := LookupExactlyOneUser(email);
      if found.None? { return false; }
      SecondLookupExactly(users, email, found.value);
      if !ResetAllowed(users[found.value].role) { return false; }
      var failure := ResetPassword(found.value, users[found.value].email, hash, now, healthy);
      ok := failure.None?;
    }

    /** The command that recovers an account, with the same two lookups and a confirmation of
        the address as stored. */
    method RunRecover(typed: string, confirmed: string, hash: string, now: int, healthy: bool) returns (ok: bool)
      modifies this
      ensures ok <==>
                && healthy && Normalize(typed) != "" && Sole(old(users), Normalize(typed)).Some?
                && var u := old(users)[Sole(old(users), Normalize(typed)).value];
                   RecoverAllowed(u) && Normalize(confirmed) == u.email && u.email == ToLower(u.email)
      ensures !ok ==> State() == old(State())
      ensures ok ==>
                var id := Sole(old(users), Normalize(typed)).value;
                var u := old(users)[id];
                State() == Bumped(old(State()), id,
                                  u.(role := PLATFORM_SUPER_ADMIN, tenant := None, passwordHash := hash, mfaEnabled := false,
                                     version := u.version + 1),
                                  "admin.recover", now)
    {
      hide Sole, Normalize, RecoverAllowed;
      var email := Normalize(typed);
      if email == "" { return false; }
      var found := LookupExactlyOneUser(email);
      if found.None? { return false; }
      SecondLookupExactly(users, email, found.value);
      if !RecoverAllowed(users[found.value]) || Normalize(confirmed) != users[found.value].email { return false; }
      var failure := Recover(found.value, users[found.value].email, hash, now, healthy);
      ok := failure.None?;
    }

    method DeleteUserSessions(user: nat)
      modifies this`sessions
      ensures sessions == set s | s in old(sessions) && s.user != user
    {
      var todo := sessions;
      while todo != {}
        invariant todo <= sessions
        invariant sessions == set s | s in old(sessions) && (s in todo || s.user != user)
      {
        var s :| s in todo;
        if s.user == user {
          sessions := sessions - {s};
        }
        todo := todo - {s};
      }
    }
  }

  datatype RecoveryError = UserNotFound | RoleRejected | Failed

  function Matches(users: map<nat, User>, email: string): set<nat> {
    set id | id in users && ToLower(users[id].email) == email
  }

  /** The id of the only account with this address, if that account is in use. */
  ghost function Sole(users: map<nat, User>, email: string): Option<nat> {
    if exists id :: Matches(users, email) == {id} && users[id].active && !users[id].deleted
    then var id :| Matches(users, email) == {id} && users[id].active && !users[id].deleted; Some(id)
    else None
  }

  lemma TheOne(ids: set<nat>, id: nat)
    requires |ids| == 1 && id in ids
    ensures ids == {id}
  {
    assert |ids - {id}| == 0;
  }

  lemma SoleIsAUser(users: map<nat, User>, email: string)
    ensures Sole(users, email).Some? ==>
              var id := Sole(users, email).value;
              id in users && ToLower(users[id].email) == email && users[id].active && !users[id].deleted
  {
  }

  predicate ResetAllowed(role: string) {
    role == PLATFORM_SUPER_ADMIN || role == TENANT_ADMIN
  }

  predicate RecoverAllowed(u: User) {
    var role := TrimSpace(u.role);
    || role == PLATFORM_SUPER_ADMIN || role == TENANT_ADMIN
    || role == "superadmin" || role == "super_admin" || role == "super-admin"
    || (role == "admin" && HasTenant(u))
  }

  /** An account is rewritten with a raised version, its sessions end, and one audit row tells. */
  function Bumped(a: Accounts, id: nat, u: User, action: string, now: int): Accounts {
    a.(users := a.users[id := u],
       sessions := (set s | s in a.sessions && s.user != id),
       audit := a.audit + [AuditRow(action, u.email, now)])
  }

  /** Exactly which account a lookup finds: the only one with the address, if it is in use. */
  lemma SoleExactly(users: map<nat, User>, email: string, id: nat)
    ensures Sole(users, email) == Some(id) <==>
              && id in users && ToLower(users[id].email) == email && users[id].active && !users[id].deleted
              && forall other <- users.Keys :: other != id ==> ToLower(users[other].email) != email
  {
    hide ToLower;
    if id in users && ToLower(users[id].email) == email
       && forall other <- users.Keys :: other != id ==> ToLower(users[other].email) != email {
      assert Matches(users, email) == {id};
    }
    if Sole(users, email) == Some(id) {
      assert Matches(users, email) == {id};
      forall other | other in users && ToLower(users[other].email) == email ensures other == id {
        assert other in Matches(users, email);
      }
      assert id in Matches(users, email);
    }
  }

  /** Exactly whom the commands serve: administrators, and for a recovery also the
      administrators of old releases. */
  lemma ServedRoles(u: User)
    ensures ResetAllowed(u.role) <==> u.role in {"platform_super_admin", "tenant_admin"}
    ensures RecoverAllowed(u) <==>
              var role := TrimSpace(u.role);
              role in {"platform_super_admin", "tenant_admin", "superadmin", "super_admin", "super-admin"}
              || (role == "admin" && u.tenant.Some? && u.tenant.value > 0)
  {
    hide TrimSpace;
  }

  /** A recovery changes the one account, ends its sessions and no others, and leaves one audit
      row; no key, tenant or revocation changes. */
  lemma BumpedExactly(a: Accounts, id: nat, u: User, action: string, now: int)
    ensures var next := Bumped(a, id, u, action, now);
            && next.users == a.users[id := u] && next.audit == a.audit + [AuditRow(action, u.email, now)]
            && (forall s :: s in next.sessions <==> s in a.sessions && s.user != id)
            && next.keys == a.keys && next.tenants == a.tenants && next.revoked == a.revoked
  {
  }

  /** Exactly when the second lookup of the commands, by the address as stored, finds the
      account that the first one found: when the address is stored in lower case. */
  lemma SecondLookupExactly(users: map<nat, User>, typed: string, found: nat)
    requires Sole(users, typed) == Some(found)
    ensures found in users && ToLower(users[found].email) == typed
    ensures Sole(users, users[found].email) == if users[found].email == ToLower(users[found].email) then Some(found) else None
  {
    SoleIsAUser(users, typed);
    var email := users[found].email;
    if email != ToLower(email) {
      MixedCaseNeverFound(users, found);
    }
  }

  /** An address that is not stored in lower case is never found. */
  lemma MixedCaseNeverFound(users: map<nat, User>, found: nat)
    requires found in users && users[found].email != ToLower(users[found].email)
    ensures Sole(users, users[found].email).None?
  {
  }
}
