/** The limiter of authentication attempts: fixed-window counters for the client address, the
    account and the pair of both, kept in a primary store that may fail and in a local
    fallback. */
module AuthLimits {
  import opened Outcomes
  import opened Text

  // ---------------------------------------------------------------- the two stores

  type Count = n: int | n >= 1 witness 1

  datatype Window = Window(count: Count, expiresAt: int)

  datatype Memory = Memory(entries: map<string, Window>, maxEntries: int)

  function LiveOnly(entries: map<string, Window>, now: int): map<string, Window> {
    map k | k in entries && now < entries[k].expiresAt :: entries[k]
  }

  /** The in-memory counter after one more hit, and what it answers. */
  function MemoryIncr(m: Memory, key: string, now: int, window: int): (Memory, int) {
    if key in m.entries then
      var e := m.entries[key];
      var next := if now < e.expiresAt then Window(e.count + 1, e.expiresAt) else Window(1, now + window);
      (m.(entries := m.entries[key := next]), next.count)
    else
      var kept := if |m.entries| >= m.maxEntries then LiveOnly(m.entries, now) else m.entries;
      if |kept| >= m.maxEntries then (m.(entries := kept), m.maxEntries)
      else (m.(entries := kept[key := Window(1, now + window)]), 1)
  }

  function MemoryReset(m: Memory, key: string): Memory {
    m.(entries := m.entries - {key})
  }

  const DEFAULT_MEMORY_LIMIT_ENTRIES := 50_000

  class MemoryLimitStore {
    var entries: map<string, Window>
    var maxEntries: int

    function State(): Memory
      reads this
    {
      Memory(entries, maxEntries)
    }

    constructor ()
      ensures State() == Memory(map[], DEFAULT_MEMORY_LIMIT_ENTRIES)
    {
      entries, maxEntries := map[], DEFAULT_MEMORY_LIMIT_ENTRIES;
    }

    /** Drops the elapsed windows and no others. */
    method Sweep(now: int)
      modifies this`entries
      ensures entries == LiveOnly(old(entries), now)
    {
      var todo := entries.Keys;
      while todo != {}
        invariant todo <= entries.Keys
        invariant entries == map k | k in old(entries) && (k in todo || now < old(entries)[k].expiresAt) :: old(entries)[k]
      {
        var k :| k in todo;
        if now >= entries[k].expiresAt {
          entries := entries - {k};
        }
        todo := todo - {k};
      }
    }

    method Incr(key: string, now: int, window: int) returns (count: int)
      modifies this`entries
      ensures (State(), count) == MemoryIncr(old(State()), key, now, window)
    {
      if key in entries {
        var e := entries[key];
        if now < e.expiresAt {
          entries := entries[key := Window(e.count + 1, e.expiresAt)];
          return e.count + 1;
        }
        entries := entries[key := Window(1, now + window)];
        return 1;
      }
      if |entries| >= maxEntries {
        Sweep(now);
        if |entries| >= maxEntries {
          return maxEntries;
        }
      }
      entries := entries[key := Window(1, now + window)];
      count := 1;
    }

    method Reset(key: string)
      modifies this`entries
      ensures State() == MemoryReset(old(State()), key)
    {
      entries := entries - {key};
    }
  }

  /** A Redis counter; without an expiry it stays until it is armed or deleted. */
  datatype Counter = Counter(count: Count, expiresAt: Option<int>)

  datatype Redis = Redis(connected: bool, counters: map<string, Counter>)

  /** What may go wrong with one pipelined INCR and EXPIRE NX. */
  datatype Mishap = NoMishap | NotSent | NotArmed | ReplyLost

  predicate Alive(c: Counter, now: int) {
    c.expiresAt.None? || now < c.expiresAt.value
  }

  function Increment(r: Redis, key: string, now: int): Counter {
    if key in r.counters && Alive(r.counters[key], now) then r.counters[key].(count := r.counters[key].count + 1)
    else Counter(1, None)
  }

  /** EXPIRE NX: only a counter without an expiry is given one. */
  function Arm(c: Counter, now: int, window: int): Counter {
    if c.expiresAt.Some? then c else c.(expiresAt := Some(now + window))
  }

  function RedisIncr(r: Redis, key: string, now: int, window: int, mishap: Mishap): (Redis, Option<int>) {
    if !r.connected || mishap.NotSent? then (r, None)
    else
      var c := Increment(r, key, now);
      var stored := if mishap.NotArmed? then c else Arm(c, now, window);
      (r.(counters := r.counters[key := stored]), if mishap.NoMishap? then Some(c.count) else None)
  }

  function RedisReset(r: Redis, key: string, fails: bool): Redis {
    if !r.connected || fails then r else r.(counters := r.counters - {key})
  }

  class RedisLimitStore {
    const connected: bool
    var counters: map<string, Counter>

    function State(): Redis
      reads this
    {
      Redis(connected, counters)
    }

    constructor (connected: bool)
      ensures State() == Redis(connected, map[])
    {
      this.connected, counters := connected, map[];
    }

    method Incr(key: string, now: int, window: int, mishap: Mishap) returns (count: Option<int>)
      modifies this`counters
      ensures (State(), count) == RedisIncr(old(State()), key, now, window, mishap)
    {
      if !connected || mishap == NotSent { return None; }
      if key in counters && !Alive(counters[key], now) {
        counters := counters - {key};
      }
      var c := if key in counters then counters[key].(count := counters[key].count + 1) else Counter(1, None);
      counters := counters[key := c];
      if mishap != NotArmed && counters[key].expiresAt == None {
        counters := counters[key := c.(expiresAt := Some(now + window))];
      }
      assert counters == old(counters)[key := counters[key]];
      count := if mishap == NoMishap then Some(c.count) else None;
    }

    method Reset(key: string, fails: bool) returns (ok: bool)
      modifies this`counters
      ensures State() == RedisReset(old(State()), key, fails) && ok == (connected && !fails)
    {
      if !connected || fails { return false; }
      counters := counters - {key};
      ok := true;
    }
  }

  // ---------------------------------------------------------------- one counter, two stores

  datatype Store = InMemory(memory: Memory) | InRedis(redis: Redis)

  datatype Stores = Stores(primary: Store, fallback: Memory)

  /** What goes wrong while one counter is hit. */
  datatype Trouble = Trouble(primary: Mishap, fallbackFails: bool)

  datatype Answer = Answer(count: Option<int>, degraded: bool)

  function PrimaryIncr(s: Store, key: string, now: int, window: int, mishap: Mishap): (Store, Option<int>) {
    match s
    case InMemory(m) => var (next, count) := MemoryIncr(m, key, now, window); (InMemory(next), Some(count))
    case InRedis(r) => var (next, count) := RedisIncr(r, key, now, window, mishap); (InRedis(next), count)
  }

  /** The primary store answers, or else the fallback. */
  function Touch(s: Stores, key: string, now: int, window: int, trouble: Trouble): (Stores, Answer) {
    var (primary, count) := PrimaryIncr(s.primary, key, now, window, trouble.primary);
    if count.Some? then (s.(primary := primary), Answer(count, false))
    else if trouble.fallbackFails then (s.(primary := primary), Answer(None, true))
    else
      var (fallback, counted) := MemoryIncr(s.fallback, key, now, window);
      (Stores(primary, fallback), Answer(Some(counted), true))
  }

  // ---------------------------------------------------------------- the limiter

  datatype Policy = Policy(ipMax: int, accountMax: int, comboMax: int, window: int)

  const DEFAULT_POLICY := Policy(20, 5, 5, 15 * 60)

  predicate Sound(p: Policy) {
    p.ipMax > 0 && p.accountMax > 0 && p.comboMax > 0 && p.window > 0
  }

  /** How identifiers become keys: the canonical client address, and the hash. */
  datatype Identity = Identity(clientIp: string -> string, hash: string -> string)

  datatype Dimension = Ip | Account | Combo

  datatype Verdict = Admitted | Exhausted(dimension: Dimension) | Unavailable

  datatype Decision = Decision(verdict: Verdict, degraded: bool, retryAfter: int)

  /** When one counter is hit, and what goes wrong then. */
  datatype Moment = Moment(now: int, trouble: Trouble)

  datatype Attempt = Attempt(rawIp: string, rawAccount: string, ip: Moment, account: Moment, combo: Moment)

  function IpKey(id: Identity, ip: string): string {
    "authlimit:ip:" + id.hash(ip)
  }

  function AccountKey(id: Identity, account: string): string {
    "authlimit:acct:" + id.hash(account)
  }

  function ComboKey(id: Identity, ip: string, account: string): string {
    "authlimit:combo:" + id.hash(ip + "\U{1f}" + account)
  }

  function KeyOf(id: Identity, a: Attempt, d: Dimension): string {
    match d
    case Ip => IpKey(id, id.clientIp(a.rawIp))
    case Account => AccountKey(id, Normalize(a.rawAccount))
    case Combo => ComboKey(id, id.clientIp(a.rawIp), Normalize(a.rawAccount))
  }

  predicate Uses(a: Attempt, d: Dimension) {
    d.Ip? || Normalize(a.rawAccount) != ""
  }

  function MomentOf(a: Attempt, d: Dimension): Moment {
    match d
    case Ip => a.ip
    case Account => a.account
    case Combo => a.combo
  }

  function MaxOf(p: Policy, d: Dimension): int {
    match d
    case Ip => p.ipMax
    case Account => p.accountMax
    case Combo => p.comboMax
  }

  function Hit(p: Policy, id: Identity, s: Stores, a: Attempt, d: Dimension): (Stores, Answer) {
    Touch(s, KeyOf(id, a, d), MomentOf(a, d).now, p.window, MomentOf(a, d).trouble)
  }

  predicate Over(p: Policy, d: Dimension, answer: Answer) {
    answer.count.Some? && answer.count.value > MaxOf(p, d)
  }

  /** One attempt: every dimension is charged, whatever an earlier one answered; only when
      neither store can count the address is the attempt refused at once. */
  function CheckStep(p: Policy, id: Identity, s: Stores, a: Attempt): (Stores, Decision) {
    var (s1, ip) := Hit(p, id, s, a, Ip);
    if ip.count.None? then (s1, Decision(Unavailable, true, p.window))
    else if !Uses(a, Account) then
      (s1, Decision(if Over(p, Ip, ip) then Exhausted(Ip) else Admitted, ip.degraded, p.window))
    else
      var (s2, account) := Hit(p, id, s1, a, Account);
      var (s3, combo) := Hit(p, id, s2, a, Combo);
      var verdict := if Over(p, Ip, ip) then Exhausted(Ip) else if Over(p, Account, account) then Exhausted(Account)
                     else if Over(p, Combo, combo) then Exhausted(Combo) else Admitted;
      (s3, Decision(verdict, ip.degraded || account.degraded || combo.degraded, p.window))
  }

  function PrimaryReset(s: Store, key: string, fails: bool): Store {
    match s
    case InMemory(m) => InMemory(MemoryReset(m, key))
    case InRedis(r) => InRedis(RedisReset(r, key, fails))
  }

  function ResetStep(id: Identity, s: Stores, rawIp: string, rawAccount: string, accountFails: bool,
                     comboFails: bool): Stores {
    var account := Normalize(rawAccount);
    if account == "" then s
    else
      var accountKey, comboKey := AccountKey(id, account), ComboKey(id, id.clientIp(rawIp), account);
      Stores(PrimaryReset(PrimaryReset(s.primary, accountKey, accountFails), comboKey, comboFails),
             MemoryReset(MemoryReset(s.fallback, accountKey), comboKey))
  }

  datatype PrimaryStore = OnMemory(memory: MemoryLimitStore) | OnRedis(redis: RedisLimitStore) {
    function Object(): object {
      if OnMemory? then memory else redis
    }
  }

  class AuthLimiter {
    const primary: PrimaryStore
    const fallback: MemoryLimitStore
    const policy: Policy
    const id: Identity

    ghost predicate Valid() {
      primary.Object() != fallback && Sound(policy)
    }

    function State(): Stores
      reads primary.Object(), fallback
    {
      Stores(if primary.OnMemory? then InMemory(primary.memory.State()) else InRedis(primary.redis.State()), fallback.State())
    }

    constructor (primary: PrimaryStore, policy: Policy, id: Identity)
      ensures Valid() && fresh(fallback) && this.primary == primary && this.id == id
      ensures this.policy == if policy.ipMax > 0 && policy.accountMax > 0 && policy.comboMax > 0 && policy.window > 0
                             then policy else Policy(20, 5, 5, 900)
      ensures fallback.State() == Memory(map[], 50_000)
    {
      this.primary, this.id := primary, id;
      this.policy := if policy.window <= 0 || policy.ipMax <= 0 || policy.accountMax <= 0 || policy.comboMax <= 0
                     then DEFAULT_POLICY else policy;
      this.fallback := new MemoryLimitStore();
    }

    method Incr(key: string, m: Moment) returns (answer: Answer)
      requires Valid()
      modifies primary.Object(), fallback
      ensures (State(), answer) == Touch(old(State()), key, m.now, policy.window, m.trouble)
    {
      var count: Option<int>;
      if primary.OnMemory? {
        var n := primary.memory.Incr(key, m.now, policy.window);
        count := Some(n);
      } else {
        count := primary.redis.Incr(key, m.now, policy.window, m.trouble.primary);
      }
      if count.Some? { return Answer(count, false); }
      if m.trouble.fallbackFails { return Answer(None, true); }
      var n := fallback.Incr(key, m.now, policy.window);
      answer := Answer(Some(n), true);
    }

    method Check(a: Attempt) returns (decision: Decision)
      requires Valid()
      modifies primary.Object(), fallback
      ensures (State(), decision) == CheckStep(policy, id, old(State()), a)
    {
      hide Touch;
      var ip := id.clientIp(a.rawIp);
      var account := Normalize(a.rawAccount);
      decision := Decision(Admitted, false, policy.window);
      var answer := Incr(IpKey(id, ip), a.ip);
      decision := decision.(degraded := decision.degraded || answer.degraded);
      if answer.count.None? { return Decision(Unavailable, true, policy.window); }
      if answer.count.value > policy.ipMax {
        decision := decision.(verdict := Exhausted(Ip));
      }
      if account == "" { return; }
      answer := Incr(AccountKey(id, account), a.account);
      decision := decision.(degraded := decision.degraded || answer.degraded);
      if answer.count.Some? && answer.count.value > policy.accountMax && decision.verdict == Admitted {
        decision := decision.(verdict := Exhausted(Account));
      }
      answer := Incr(ComboKey(id, ip, account), a.combo);
      decision := decision.(degraded := decision.degraded || answer.degraded);
      if answer.count.Some? && answer.count.value > policy.comboMax && decision.verdict == Admitted {
        decision := decision.(verdict := Exhausted(Combo));
      }
    }

    method ResetPrimary(key: string, fails: bool)
      requires Valid()
      modifies primary.Object()
      ensures State() == old(State()).(primary := PrimaryReset(old(State()).primary, key, fails))
    {
      if primary.OnMemory? {
        primary.memory.Reset(key);
      } else {
        var _ := primary.redis.Reset(key, fails);
      }
    }

    method ResetAccount(rawIp: string, rawAccount: string, accountFails: bool, comboFails: bool)
      requires Valid()
      modifies primary.Object(), fallback
      ensures State() == ResetStep(id, old(State()), rawIp, rawAccount, accountFails, comboFails)
    {
      var account := Normalize(rawAccount);
      if account == "" { return; }
      var ip := id.clientIp(rawIp);
      ResetPrimary(AccountKey(id, account), accountFails);
      ResetPrimary(ComboKey(id, ip, account), comboFails);
      fallback.Reset(AccountKey(id, account));
      fallback.Reset(ComboKey(id, ip, account));
    }
  }
}
