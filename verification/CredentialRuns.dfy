/** Minting, checking and revoking credentials side by side: whatever was issued, or was being
    issued, before an account's version is raised is never accepted afterwards. */
module CredentialRuns {
  import opened Outcomes
  import opened Credentials

  /** Between reading an account and issuing a credential, or between reading a key and
      checking its owner, anything may happen. */
  datatype Pending = MintToken(user: nat, role: string, version: nat) | MintKey(key: Key) | CheckKey(hash: string, key: Key)

  /** The answer of a key check: the row as it was read, with the role it grants if any. */
  datatype Verdict = Granted(hash: string, key: Key) | Refused(hash: string)

  datatype System = System(a: Accounts, tokens: seq<Token>, pending: map<nat, Pending>, verdicts: seq<Verdict>)

  datatype Step = ReadForToken(who: nat, user: nat)
                | ReadForNamedRole(who: nat, user: nat, role: string, healthy: bool)
                | SignToken(who: nat, jti: string, expiresAt: int)
                | ReadForKey(who: nat, user: nat, template: Key)
                | StoreKey(who: nat, hash: string)
                | RotateKey(oldHash: string, newHash: string, template: Key)
                | DisableKey(hash: string)
                | ReadKey(who: nat, hash: string, now: int, ipAllowed: bool)
                | DecideKey(who: nat)
                | RevokeJti(jti: string, until: int)
                | AddUser(user: nat, to: User)
                | EditUser(user: nat, to: User)
                | BumpUser(user: nat, to: User)
                | EditTenant(tenant: nat, row: Tenant)

  const START := System(Accounts(map[], map[], map[], map[], {}, []), [], map[], [])

  function StoredFor(a: Accounts, user: nat, template: Key): Key
    requires user in a.users
  {
    template.(owner := user, ownerVersion := a.users[user].version, active := true, deleted := false)
  }

  predicate MayMint(a: Accounts, user: nat, template: Key) {
    user in a.users && Authorized(a.users[user]) && template.role == a.users[user].role
  }

  /** The owner is looked at only now. */
  function Decided(s: System, who: nat): Verdict
    requires who in s.pending && s.pending[who].CheckKey?
  {
    var p := s.pending[who];
    if OwnerVouches(s.a.users, s.a.tenants, p.key) then Granted(p.hash, p.key.(role := s.a.users[p.key.owner].role))
    else Refused(p.hash)
  }

  function Next(s: System, step: Step): System {
    match step
    case ReadForToken(i, user) =>
      if user in s.a.users && Authorized(s.a.users[user])
      then s.(pending := s.pending[i := MintToken(user, s.a.users[user].role, s.a.users[user].version)]) else s
    case ReadForNamedRole(i, user, role, healthy) =>
      s.(pending := s.pending[i := MintToken(user, role, if healthy && user in s.a.users then s.a.users[user].version else 0)])
    case SignToken(i, jti, expiresAt) =>
      if i in s.pending && s.pending[i].MintToken? then
        var p := s.pending[i];
        s.(tokens := s.tokens + [Token(p.user, p.role, Some(p.version), jti, expiresAt)], pending := s.pending - {i})
      else s
    case ReadForKey(i, user, template) =>
      if MayMint(s.a, user, template) then s.(pending := s.pending[i := MintKey(StoredFor(s.a, user, template))]) else s
    case StoreKey(i, hash) =>
      if i in s.pending && s.pending[i].MintKey? && hash !in s.a.keys
      then s.(a := s.a.(keys := s.a.keys[hash := s.pending[i].key]), pending := s.pending - {i}) else s
    case RotateKey(oldHash, newHash, template) =>
      if oldHash in s.a.keys && s.a.keys[oldHash].active && !s.a.keys[oldHash].deleted && newHash !in s.a.keys
         && MayMint(s.a, s.a.keys[oldHash].owner, template)
      then
        var was := s.a.keys[oldHash];
        s.(a := s.a.(keys := s.a.keys[newHash := StoredFor(s.a, was.owner, template)][oldHash := was.(active := false)]))
      else s
    case DisableKey(hash) =>
      if hash in s.a.keys then s.(a := s.a.(keys := s.a.keys[hash := s.a.keys[hash].(active := false)])) else s
    case ReadKey(i, hash, now, ipAllowed) =>
      if hash in s.a.keys && Usable(s.a.keys[hash], now) && ipAllowed
      then s.(pending := s.pending[i := CheckKey(hash, s.a.keys[hash])]) else s
    case DecideKey(i) =>
      if i in s.pending && s.pending[i].CheckKey? then s.(pending := s.pending - {i}, verdicts := s.verdicts + [Decided(s, i)])
      else s
    case RevokeJti(jti, until) => s.(a := s.a.(revoked := s.a.revoked[jti := until]))
    case AddUser(user, to) => if user in s.a.users then s else s.(a := s.a.(users := s.a.users[user := to]))
    case EditUser(user, to) =>
      if user in s.a.users then s.(a := s.a.(users := s.a.users[user := to.(version := s.a.users[user].version)])) else s
    case BumpUser(user, to) =>
      if user in s.a.users then s.(a := s.a.(users := s.a.users[user := to.(version := s.a.users[user].version + 1)])) else s
    case EditTenant(tenant, row) => s.(a := s.a.(tenants := s.a.tenants[tenant := row]))
  }

  function Run(s: System, steps: seq<Step>): System
    decreases |steps|
  {
    if steps == [] then s else Run(Next(s, steps[0]), steps[1..])
  }

  // ---------------------------------------------------------------- versions

  /** A version that was read from an account, or 0 for one that could not be read. */
  predicate NotAhead(users: map<nat, User>, user: nat, version: nat) {
    version <= if user in users then users[user].version else 0
  }

  function UserOf(p: Pending): nat {
    if p.MintToken? then p.user else p.key.owner
  }

  function VersionOf(p: Pending): nat {
    if p.MintToken? then p.version else p.key.ownerVersion
  }

  predicate TokensBehind(s: System) {
    forall t <- s.tokens :: t.version.Some? && NotAhead(s.a.users, t.user, t.version.value)
  }

  predicate PendingBehind(s: System) {
    forall i <- s.pending.Keys :: NotAhead(s.a.users, UserOf(s.pending[i]), VersionOf(s.pending[i]))
  }

  predicate KeysBehind(s: System) {
    forall h <- s.a.keys.Keys :: NotAhead(s.a.users, s.a.keys[h].owner, s.a.keys[h].ownerVersion)
  }

  /** Nothing issued or under way carries a version its account has not reached. */
  predicate Inv(s: System) {
    TokensBehind(s) && PendingBehind(s) && KeysBehind(s)
  }

  predicate VersionsRise(s: System, t: System) {
    forall u <- s.a.users.Keys :: u in t.a.users && s.a.users[u].version <= t.a.users[u].version
  }

  predicate KeysStay(s: System, t: System) {
    forall h <- s.a.keys.Keys :: h in t.a.keys && t.a.keys[h].owner == s.a.keys[h].owner
                                 && t.a.keys[h].ownerVersion == s.a.keys[h].ownerVersion
  }

  /** Accounts stay and their versions never fall; keys stay with the version they were given. */
  predicate Later(s: System, t: System) {
    VersionsRise(s, t) && KeysStay(s, t)
  }

  lemma StepVersions(s: System, step: Step)
    ensures VersionsRise(s, Next(s, step))
  {
  }

  lemma StepKeys(s: System, step: Step)
    ensures KeysStay(s, Next(s, step))
  {
    hide Authorized, Usable, MayMint;
  }

  lemma StepTokensBehind(s: System, step: Step)
    requires TokensBehind(s) && PendingBehind(s)
    ensures TokensBehind(Next(s, step))
  {
  }

  lemma StepPendingBehind(s: System, step: Step)
    requires PendingBehind(s) && KeysBehind(s)
    ensures PendingBehind(Next(s, step))
  {
    hide Authorized, Usable;
  }

  lemma StepKeysBehind(s: System, step: Step)
    requires PendingBehind(s) && KeysBehind(s)
    ensures KeysBehind(Next(s, step))
  {
    hide Authorized, Usable;
  }

  lemma StepKeeps(s: System, step: Step)
    requires Inv(s)
    ensures Inv(Next(s, step)) && Later(s, Next(s, step))
  {
    hide Next;
    StepVersions(s, step);
    StepKeys(s, step);
    StepTokensBehind(s, step);
    StepPendingBehind(s, step);
    StepKeysBehind(s, step);
  }

  lemma {:induction false} RunKeeps(s: System, steps: seq<Step>)
    requires Inv(s)
    ensures Inv(Run(s, steps)) && Later(s, Run(s, steps))
    decreases |steps|
  {
    hide Next, Inv;
    if steps != [] {
      StepKeeps(s, steps[0]);
      RunKeeps(Next(s, steps[0]), steps[1..]);
    }
  }

  /** After an account's version is raised, in no later state of any run is a token accepted
      that was signed before or is signed later from an earlier reading, nor a key that was
      stored before, nor a key check that is still under way. */
  lemma RevokedForGood(before: seq<Step>, user: nat, to: User, after: seq<Step>, now: int)
    requires user in Run(START, before).a.users
    ensures var s := Run(START, before);
            var later := Run(Next(s, BumpUser(user, to)), after);
            && (forall t, revoked :: t in s.tokens && t.user == user ==> !TokenAccepted(later.a.(revoked := revoked), t, now))
            && (forall i, role, jti, expiresAt :: i in s.pending && s.pending[i].MintToken? && UserOf(s.pending[i]) == user ==>
                  !TokenAccepted(later.a, Token(user, role, Some(VersionOf(s.pending[i])), jti, expiresAt), now))
            && (forall h, ip :: h in s.a.keys && s.a.keys[h].owner == user ==> !KeyAccepted(later.a, h, now, ip))
            && (forall i :: i in s.pending && UserOf(s.pending[i]) == user && !s.pending[i].MintToken? ==>
                  !OwnerVouches(later.a.users, later.a.tenants, s.pending[i].key))
  {
    hide Next, Run, Authorized, Usable;
    RunKeeps(START, before);
    var s := Run(START, before);
    var bumped := Next(s, BumpUser(user, to));
    Bumps(s, user, to);
    StepKeeps(s, BumpUser(user, to));
    RunKeeps(bumped, after);
  }

  lemma Bumps(s: System, user: nat, to: User)
    requires user in s.a.users
    ensures var next := Next(s, BumpUser(user, to));
            user in next.a.users && next.a.users[user].version == s.a.users[user].version + 1 && next.a.keys == s.a.keys
  {
  }

  // ---------------------------------------------------------------- what a granted check tells

  /** Keys differ in nothing but whether they are enabled. */
  predicate SameKey(a: Key, b: Key) {
    a.(active := true) == b.(active := true)
  }

  /** The row that a check under way has read is still there, the same but for its being enabled. */
  predicate ReadingsStand(s: System) {
    forall i <- s.pending.Keys :: s.pending[i].CheckKey? ==>
      && s.pending[i].hash in s.a.keys && SameKey(s.pending[i].key, s.a.keys[s.pending[i].hash])
      && !s.pending[i].key.deleted
  }

  lemma RowsStay(s: System, step: Step)
    ensures forall h <- s.a.keys.Keys :: h in Next(s, step).a.keys && SameKey(s.a.keys[h], Next(s, step).a.keys[h])
  {
    hide Authorized, Usable, MayMint, OwnerVouches;
  }

  /** A check under way was so before, or has just read its key. */
  lemma ChecksBegin(s: System, step: Step, i: nat)
    requires i in Next(s, step).pending && Next(s, step).pending[i].CheckKey?
    ensures var p := Next(s, step).pending[i];
            (i in s.pending && s.pending[i] == p)
            || (p.hash in s.a.keys && p.key == s.a.keys[p.hash] && !p.key.deleted)
  {
    hide Authorized, MayMint, OwnerVouches;
  }

  lemma StepReadings(s: System, step: Step)
    requires ReadingsStand(s)
    ensures ReadingsStand(Next(s, step))
  {
    hide Next;
    var next := Next(s, step);
    RowsStay(s, step);
    forall i | i in next.pending && next.pending[i].CheckKey?
      ensures next.pending[i].hash in next.a.keys && SameKey(next.pending[i].key, next.a.keys[next.pending[i].hash])
      ensures !next.pending[i].key.deleted
    {
      ChecksBegin(s, step, i);
      assert next.pending[i].hash in s.a.keys;
    }
  }

  lemma {:induction false} RunReadings(s: System, steps: seq<Step>)
    requires ReadingsStand(s)
    ensures ReadingsStand(Run(s, steps))
    decreases |steps|
  {
    hide Next, ReadingsStand;
    if steps != [] {
      StepReadings(s, steps[0]);
      RunReadings(Next(s, steps[0]), steps[1..]);
    }
  }

  /** However long a check took and whatever has happened since it read the key: it is granted
      exactly if the owner, as he is when it is decided, vouches for the key as it is stored
      then, and what it grants are the owner's role and tenant of that moment. */
  lemma GrantedIsCurrent(steps: seq<Step>, who: nat)
    requires who in Run(START, steps).pending && Run(START, steps).pending[who].CheckKey?
    ensures var s := Run(START, steps);
            var verdict := Decided(s, who);
            && verdict.hash in s.a.keys
            && (verdict.Granted? <==> OwnerVouches(s.a.users, s.a.tenants, s.a.keys[verdict.hash]))
            && (verdict.Granted? ==>
                  var owner := s.a.users[verdict.key.owner];
                  && SameKey(verdict.key, s.a.keys[verdict.hash]) && owner.active && !owner.deleted
                  && verdict.key.role == owner.role && verdict.key.ownerVersion == owner.version
                  && verdict.key.tenant == (if owner.role == PLATFORM_SUPER_ADMIN then 0 else OwnerTenant(owner))
                  && (owner.role != PLATFORM_SUPER_ADMIN ==> owner.tenant == Some(verdict.key.tenant)))
  {
    hide Next, Run;
    RunReadings(START, steps);
    var s := Run(START, steps);
    var p := s.pending[who];
    SameVouching(s.a.users, s.a.tenants, p.key, s.a.keys[p.hash]);
    if OwnerVouches(s.a.users, s.a.tenants, p.key) {
      VouchedKeyIsCurrent(s.a.users, s.a.tenants, p.key);
    }
  }

  lemma SameVouching(users: map<nat, User>, tenants: map<nat, Tenant>, a: Key, b: Key)
    requires SameKey(a, b)
    ensures OwnerVouches(users, tenants, a) <==> OwnerVouches(users, tenants, b)
  {
    var x, y := a.(active := true), b.(active := true);
    assert a.owner == x.owner && a.role == x.role && a.tenant == x.tenant && a.ownerVersion == x.ownerVersion;
    assert b.owner == y.owner && b.role == y.role && b.tenant == y.tenant && b.ownerVersion == y.ownerVersion;
  }

  /** Exactly when a granted check is one that would be granted at its decision: what is not
      looked at again is that the key is enabled and in time, and comes from an allowed address. */
  lemma GrantedAcceptable(steps: seq<Step>, who: nat, now: int, ipAllowed: bool)
    requires who in Run(START, steps).pending && Run(START, steps).pending[who].CheckKey?
    requires Decided(Run(START, steps), who).Granted?
    ensures var s := Run(START, steps);
            var hash := Decided(s, who).hash;
            hash in s.a.keys
            && var key := s.a.keys[hash];
               KeyAccepted(s.a, hash, now, ipAllowed) <==>
               key.active && !(key.expiresAt.Some? && now > key.expiresAt.value) && ipAllowed
  {
    hide Next, Run, OwnerVouches, SameKey;
    GrantedIsCurrent(steps, who);
    RunReadings(START, steps);
    var p := Run(START, steps).pending[who];
    SameDeleted(p.key, Run(START, steps).a.keys[p.hash]);
  }

  lemma SameDeleted(a: Key, b: Key)
    requires SameKey(a, b)
    ensures a.deleted == b.deleted
  {
    var x, y := a.(active := true), b.(active := true);
    assert x.deleted == y.deleted;
  }

  /** So a key that is disabled during its check still passes. */
  lemma DisabledMeanwhileGranted(s: System, who: nat, hash: string, now: int)
    requires KeyAccepted(s.a, hash, now, true)
    ensures var read := Next(s, ReadKey(who, hash, now, true));
            var disabled := Next(read, DisableKey(hash));
            Decided(disabled, who).Granted? && forall t, ip :: !KeyAccepted(disabled.a, hash, t, ip)
  {
    hide Authorized;
  }

  /** Storing a key undisturbed is reading and storing in two steps, and what a recovery
      command does to the account is a raise of its version. */
  lemma CallsAreSteps(s: System, who: nat, user: nat, template: Key, hash: string, to: User, action: string, at: int)
    requires MayMint(s.a, user, template) && who !in s.pending && hash !in s.a.keys && to.version == s.a.users[user].version + 1
    ensures Next(Next(s, ReadForKey(who, user, template)), StoreKey(who, hash))
         == s.(a := s.a.(keys := s.a.keys[hash := StoredFor(s.a, user, template)]))
    ensures Next(s, BumpUser(user, to)).a.users == Bumped(s.a, user, to, action, at).users
  {
    hide Authorized;
    var key := StoredFor(s.a, user, template);
    assert s.pending[who := MintKey(key)] - {who} == s.pending;
  }

  /** The recovery commands raise the version, so everything issued for the account is void. */
  lemma RecoveryRevokes(a: Accounts, id: nat, u: User, action: string, at: int, t: Token, hash: string, now: int,
                        ip: bool)
    requires id in a.users && u.version == a.users[id].version + 1
    requires t.user == id && t.version.Some? && NotAhead(a.users, id, t.version.value)
    requires hash in a.keys && a.keys[hash].owner == id && NotAhead(a.users, id, a.keys[hash].ownerVersion)
    ensures var next := Bumped(a, id, u, action, at);
            !TokenAccepted(next, t, now) && !KeyAccepted(next, hash, now, ip) && forall s <- next.sessions :: s.user != id
  {
  }
}
