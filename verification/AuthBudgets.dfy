/** How many attempts the limiter can admit within one window, and why the two stores agree. */
module AuthBudgets {
  import opened Collections
  import opened Outcomes
  import opened Text
  import opened AuthLimits

  // ---------------------------------------------------------------- what is left of a budget

  function Min(a: int, b: int): int {
    if a < b then a else b
  }

  /** How many more hits a window of this age can answer with at most `max`, up to the moment
      `end`: a window that elapses before then is followed by one that does not. */
  function WindowLeft(count: Count, expiresAt: Option<int>, max: int, end: int): int {
    max - Min(count, max) + if expiresAt.Some? && expiresAt.value < end then max else 0
  }

  function MemoryLeft(m: Memory, key: string, max: int, end: int): int {
    if key in m.entries then WindowLeft(m.entries[key].count, Some(m.entries[key].expiresAt), max, end) else max
  }

  function RedisLeft(r: Redis, key: string, max: int, end: int): int {
    if key in r.counters then WindowLeft(r.counters[key].count, r.counters[key].expiresAt, max, end) else max
  }

  function PrimaryLeft(s: Store, key: string, max: int, end: int): int {
    if s.InMemory? then MemoryLeft(s.memory, key, max, end) else RedisLeft(s.redis, key, max, end)
  }

  function Left(s: Stores, key: string, max: int, end: int): int {
    PrimaryLeft(s.primary, key, max, end) + MemoryLeft(s.fallback, key, max, end)
  }

  function Passes(count: Option<int>, max: int): int {
    if count.Some? && count.value <= max then 1 else 0
  }

  /** Every store answers above `max` when it is full. */
  predicate Roomy(s: Stores, max: int) {
    s.fallback.maxEntries > max && (s.primary.InMemory? ==> s.primary.memory.maxEntries > max)
  }

  predicate SameShape(a: Stores, b: Stores) {
    && a.fallback.maxEntries == b.fallback.maxEntries && a.primary.InMemory? == b.primary.InMemory?
    && (a.primary.InMemory? ==> a.primary.memory.maxEntries == b.primary.memory.maxEntries)
    && (a.primary.InRedis? ==> a.primary.redis.connected == b.primary.redis.connected)
  }

  lemma LeftBounds(s: Stores, key: string, max: int, end: int)
    requires max > 0
    ensures 0 <= MemoryLeft(s.fallback, key, max, end) <= 2 * max - 1
    ensures 0 <= PrimaryLeft(s.primary, key, max, end) <= 2 * max - 1
  {
  }

  /** A hit takes what it passes out of the budget; a hit on another key takes nothing. */
  lemma MemorySpends(m: Memory, key: string, hit: string, now: int, window: int, max: int, end: int)
    requires 0 < max < m.maxEntries && now < end <= now + window
    ensures var (next, count) := MemoryIncr(m, hit, now, window);
            MemoryLeft(next, key, max, end) + (if hit == key then Passes(Some(count), max) else 0) <= MemoryLeft(m, key, max, end)
  {
  }

  lemma RedisSpends(r: Redis, key: string, hit: string, now: int, window: int, mishap: Mishap, max: int, end: int)
    requires 0 < max && now < end <= now + window
    ensures var (next, count) := RedisIncr(r, hit, now, window, mishap);
            RedisLeft(next, key, max, end) + (if hit == key then Passes(count, max) else 0) <= RedisLeft(r, key, max, end)
  {
  }

  /** Whether the primary store answers. */
  predicate Answers(s: Store, mishap: Mishap) {
    s.InMemory? || (s.redis.connected && mishap.NoMishap?)
  }

  lemma TouchSpends(s: Stores, key: string, hit: string, now: int, window: int, t: Trouble, max: int, end: int)
    requires 0 < max && Roomy(s, max) && now < end <= now + window
    ensures var (next, answer) := Touch(s, hit, now, window, t);
            && SameShape(s, next)
            && Left(next, key, max, end) + (if hit == key then Passes(answer.count, max) else 0) <= Left(s, key, max, end)
            && (Answers(s.primary, t.primary) ==> next.fallback == s.fallback && !answer.degraded)
            && (t.fallbackFails || answer.count.Some?)
  {
    hide MemoryIncr, RedisIncr, MemoryLeft, RedisLeft;
    if s.primary.InMemory? {
      MemorySpends(s.primary.memory, key, hit, now, window, max, end);
      MemoryShape(s.primary.memory, hit, now, window);
    } else {
      RedisSpends(s.primary.redis, key, hit, now, window, t.primary, max, end);
      RedisShape(s.primary.redis, hit, now, window, t.primary);
    }
    MemorySpends(s.fallback, key, hit, now, window, max, end);
    MemoryShape(s.fallback, hit, now, window);
  }

  lemma MemoryShape(m: Memory, hit: string, now: int, window: int)
    ensures MemoryIncr(m, hit, now, window).0.maxEntries == m.maxEntries
  {
  }

  lemma RedisShape(r: Redis, hit: string, now: int, window: int, mishap: Mishap)
    ensures RedisIncr(r, hit, now, window, mishap).0.connected == r.connected
    ensures RedisIncr(r, hit, now, window, mishap).1.Some? <==> r.connected && mishap.NoMishap?
  {
  }

  // ---------------------------------------------------------------- any interleaving of hits

  datatype Event = Event(key: string, now: int, trouble: Trouble)

  /** How many of the hits on a key are answered with at most `max`, over a run of hits on any
      keys: the hits of concurrent attempts may interleave in any way. */
  function Passed(s: Stores, window: int, key: string, max: int, hits: seq<Event>): int
    decreases |hits|
  {
    if hits == [] then 0
    else
      var h := hits[0];
      var (next, answer) := Touch(s, h.key, h.now, window, h.trouble);
      (if h.key == key then Passes(answer.count, max) else 0) + Passed(next, window, key, max, hits[1..])
  }

  predicate Within(now: int, start: int, window: int) {
    start <= now < start + window
  }

  lemma {:induction false} PassedSpends(s: Stores, window: int, key: string, max: int, hits: seq<Event>, start: int)
    requires 0 < max && Roomy(s, max) && forall h <- hits :: Within(h.now, start, window)
    ensures Passed(s, window, key, max, hits) <= Left(s, key, max, start + window)
    ensures (forall h <- hits :: Answers(s.primary, h.trouble.primary)) ==>
              Passed(s, window, key, max, hits) <= PrimaryLeft(s.primary, key, max, start + window)
    decreases |hits|
  {
    hide Touch, PrimaryLeft, MemoryLeft;
    LeftBounds(s, key, max, start + window);
    if hits != [] {
      var h := hits[0];
      TouchSpends(s, key, h.key, h.now, window, h.trouble, max, start + window);
      PassedSpends(Touch(s, h.key, h.now, window, h.trouble).0, window, key, max, hits[1..], start);
    }
  }

  /** In an interval of one window, whatever the counters hold at its start, a budget of `max`
      lets at most 2 * max - 1 hits pass, and twice that when the primary store fails at will. */
  lemma HitsWithinOneWindow(s: Stores, window: int, key: string, max: int, hits: seq<Event>, start: int)
    requires 0 < max && Roomy(s, max) && forall h <- hits :: Within(h.now, start, window)
    ensures Passed(s, window, key, max, hits) <= 2 * (2 * max - 1)
    ensures (forall h <- hits :: Answers(s.primary, h.trouble.primary)) ==> Passed(s, window, key, max, hits) <= 2 * max - 1
  {
    PassedSpends(s, window, key, max, hits, start);
    LeftBounds(s, key, max, start + window);
  }

  // ---------------------------------------------------------------- runs of attempts

  /** How many attempts that charge `key` in dimension `d` are admitted. */
  function AdmittedOn(p: Policy, id: Identity, s: Stores, d: Dimension, key: string, attempts: seq<Attempt>): int
    decreases |attempts|
  {
    if attempts == [] then 0
    else
      var a := attempts[0];
      var (next, decision) := CheckStep(p, id, s, a);
      (if decision.verdict.Admitted? && Uses(a, d) && KeyOf(id, a, d) == key then 1 else 0)
      + AdmittedOn(p, id, next, d, key, attempts[1..])
  }

  predicate MomentFits(m: Moment, start: int, window: int) {
    Within(m.now, start, window) && !m.trouble.fallbackFails
  }

  predicate Fits(a: Attempt, start: int, window: int) {
    MomentFits(a.ip, start, window) && MomentFits(a.account, start, window) && MomentFits(a.combo, start, window)
  }

  predicate Untroubled(s: Stores, a: Attempt) {
    Answers(s.primary, a.ip.trouble.primary) && Answers(s.primary, a.account.trouble.primary)
    && Answers(s.primary, a.combo.trouble.primary)
  }

  lemma HitSpends(p: Policy, id: Identity, s: Stores, a: Attempt, d: Dimension, key: string, max: int, start: int)
    requires 0 < max && Roomy(s, max) && Fits(a, start, p.window)
    ensures var (next, answer) := Hit(p, id, s, a, d);
            && SameShape(s, next) && answer.count.Some?
            && Left(next, key, max, start + p.window) + (if KeyOf(id, a, d) == key then Passes(answer.count, max) else 0)
               <= Left(s, key, max, start + p.window)
            && (Untroubled(s, a) ==> next.fallback == s.fallback)
  {
    hide Touch, Left, KeyOf, Passes, Answers;
    TouchSpends(s, key, KeyOf(id, a, d), MomentOf(a, d).now, p.window, MomentOf(a, d).trouble, max, start + p.window);
  }

  lemma CheckSpends(p: Policy, id: Identity, s: Stores, a: Attempt, d: Dimension, key: string, start: int)
    requires Sound(p) && Roomy(s, MaxOf(p, d)) && Fits(a, start, p.window)
    ensures var (next, decision) := CheckStep(p, id, s, a);
            && SameShape(s, next)
            && Left(next, key, MaxOf(p, d), start + p.window)
               + (if decision.verdict.Admitted? && Uses(a, d) && KeyOf(id, a, d) == key then 1 else 0)
               <= Left(s, key, MaxOf(p, d), start + p.window)
            && (Untroubled(s, a) ==> next.fallback == s.fallback)
  {
    hide Hit, Left, KeyOf, Answers, MomentFits;
    var max := MaxOf(p, d);
    HitSpends(p, id, s, a, Ip, key, max, start);
    var s1 := Hit(p, id, s, a, Ip).0;
    HitSpends(p, id, s1, a, Account, key, max, start);
    var s2 := Hit(p, id, s1, a, Account).0;
    HitSpends(p, id, s2, a, Combo, key, max, start);
    StillUntroubled(s, s1, a);
    StillUntroubled(s, s2, a);
  }

  lemma StillUntroubled(s: Stores, t: Stores, a: Attempt)
    requires SameShape(s, t)
    ensures Untroubled(s, a) ==> Untroubled(t, a)
  {
  }

  lemma {:induction false} AdmittedSpends(p: Policy, id: Identity, s: Stores, d: Dimension, key: string,
                                          attempts: seq<Attempt>, start: int)
    requires Sound(p) && Roomy(s, MaxOf(p, d)) && forall a <- attempts :: Fits(a, start, p.window)
    ensures AdmittedOn(p, id, s, d, key, attempts) <= Left(s, key, MaxOf(p, d), start + p.window)
    ensures (forall a <- attempts :: Untroubled(s, a)) ==>
              AdmittedOn(p, id, s, d, key, attempts) <= PrimaryLeft(s.primary, key, MaxOf(p, d), start + p.window)
    decreases |attempts|
  {
    hide CheckStep, Fits, Untroubled, PrimaryLeft, MemoryLeft, KeyOf, Uses, Sound, MaxOf;
    SoundMax(p, d);
    LeftBounds(s, key, MaxOf(p, d), start + p.window);
    if attempts != [] {
      var a := attempts[0];
      CheckSpends(p, id, s, a, d, key, start);
      var next := CheckStep(p, id, s, a).0;
      forall b | b in attempts ensures Untroubled(s, b) ==> Untroubled(next, b) {
        StillUntroubled(s, next, b);
      }
      AdmittedSpends(p, id, next, d, key, attempts[1..], start);
    }
  }

  lemma SoundMax(p: Policy, d: Dimension)
    requires Sound(p)
    ensures MaxOf(p, d) > 0
  {
  }

  /** In an interval of one window the limiter admits at most 2 * max - 1 attempts on any one
      address, account or pair while the primary store answers, and at most twice that under
      any pattern of primary failures. */
  lemma AdmittedWithinOneWindow(p: Policy, id: Identity, s: Stores, d: Dimension, key: string, attempts: seq<Attempt>,
                                start: int)
    requires Sound(p) && Roomy(s, MaxOf(p, d)) && forall a <- attempts :: Fits(a, start, p.window)
    ensures AdmittedOn(p, id, s, d, key, attempts) <= 2 * (2 * MaxOf(p, d) - 1)
    ensures (forall a <- attempts :: Untroubled(s, a)) ==> AdmittedOn(p, id, s, d, key, attempts) <= 2 * MaxOf(p, d) - 1
  {
    hide AdmittedOn;
    AdmittedSpends(p, id, s, d, key, attempts, start);
    LeftBounds(s, key, MaxOf(p, d), start + p.window);
  }

  // ---------------------------------------------------------------- the bound is reached

  /** A hit that the primary store answers, or one that does not get through to it. */
  function On(down: bool): Trouble {
    Trouble(if down then NotSent else NoMishap, false)
  }

  function Hits(key: string, now: int, n: nat, down: bool): (hits: seq<Event>)
    ensures |hits| == n && forall h <- hits :: h == Event(key, now, On(down))
  {
    seq(n, _ => Event(key, now, On(down)))
  }

  /** The store that answers then has a window for the key. */
  predicate Holds(s: Stores, key: string, down: bool) {
    if down then s.primary.InRedis? && key in s.fallback.entries
    else match s.primary
      case InMemory(m) => key in m.entries
      case InRedis(r) => r.connected && key in r.counters && r.counters[key].expiresAt.Some?
  }

  function WindowOf(s: Stores, key: string, down: bool): Window
    requires Holds(s, key, down)
  {
    if down then s.fallback.entries[key]
    else match s.primary
      case InMemory(m) => m.entries[key]
      case InRedis(r) => Window(r.counters[key].count, r.counters[key].expiresAt.value)
  }

  function WithWindow(s: Stores, key: string, w: Window, down: bool): (t: Stores)
    requires Holds(s, key, down)
    ensures Holds(t, key, down) && WindowOf(t, key, down) == w
    ensures Holds(s, key, !down) ==> Holds(t, key, !down) && WindowOf(t, key, !down) == WindowOf(s, key, !down)
  {
    if down then s.(fallback := s.fallback.(entries := s.fallback.entries[key := w]))
    else match s.primary
      case InMemory(m) => s.(primary := InMemory(m.(entries := m.entries[key := w])))
      case InRedis(r) => s.(primary := InRedis(r.(counters := r.counters[key := Counter(w.count, Some(w.expiresAt))])))
  }

  lemma LastWindowCounts(s: Stores, key: string, v: Window, w: Window, down: bool)
    requires Holds(s, key, down)
    ensures WithWindow(WithWindow(s, key, v, down), key, w, down) == WithWindow(s, key, w, down)
    ensures WithWindow(s, key, WindowOf(s, key, down), down) == s
  {
    if down {
      var es := s.fallback.entries;
      assert es[key := v][key := w] == es[key := w] && es[key := es[key]] == es;
    } else if s.primary.InMemory? {
      var es := s.primary.memory.entries;
      assert es[key := v][key := w] == es[key := w] && es[key := es[key]] == es;
    } else {
      var cs := s.primary.redis.counters;
      var c := Counter(w.count, Some(w.expiresAt));
      assert cs[key := Counter(v.count, Some(v.expiresAt))][key := c] == cs[key := c] && cs[key := cs[key]] == cs;
    }
  }

  function Hit1(w: Window, now: int, window: int): Window {
    if now < w.expiresAt then Window(w.count + 1, w.expiresAt) else Window(1, now + window)
  }

  lemma WindowTouched(s: Stores, window: int, key: string, now: int, down: bool)
    requires Holds(s, key, down)
    ensures var w := Hit1(WindowOf(s, key, down), now, window);
            Touch(s, key, now, window, On(down)) == (WithWindow(s, key, w, down), Answer(Some(w.count), down))
  {
  }

  lemma {:induction false} LiveHitsPass(s: Stores, window: int, key: string, max: int, now: int, n: nat, down: bool,
                                        rest: seq<Event>)
    requires Holds(s, key, down)
    requires now < WindowOf(s, key, down).expiresAt && WindowOf(s, key, down).count + n <= max
    ensures var w := WindowOf(s, key, down);
            Passed(s, window, key, max, Hits(key, now, n, down) + rest)
            == n + Passed(WithWindow(s, key, w.(count := w.count + n), down), window, key, max, rest)
    decreases n
  {
    hide Touch, Holds, WindowOf, WithWindow;
    var w := WindowOf(s, key, down);
    if n == 0 {
      LastWindowCounts(s, key, w, w, down);
      assert Hits(key, now, n, down) + rest == rest;
    } else {
      var hits := Hits(key, now, n, down) + rest;
      assert hits[0] == Event(key, now, On(down)) && hits[1..] == Hits(key, now, n - 1, down) + rest;
      WindowTouched(s, window, key, now, down);
      var next := w.(count := w.count + 1);
      LastWindowCounts(s, key, next, w.(count := w.count + n), down);
      LiveHitsPass(WithWindow(s, key, next, down), window, key, max, now, n - 1, down, rest);
    }
  }

  /** An elapsed window is renewed by the first hit, and lets all of its budget pass. */
  lemma RenewedHitsPass(s: Stores, window: int, key: string, max: int, now: int, down: bool, rest: seq<Event>)
    requires 0 < max && 0 < window && Holds(s, key, down) && WindowOf(s, key, down).expiresAt <= now
    ensures Passed(s, window, key, max, Hits(key, now, max, down) + rest)
         == max + Passed(WithWindow(s, key, Window(max, now + window), down), window, key, max, rest)
  {
    hide Touch, Holds, WindowOf, WithWindow;
    var hits := Hits(key, now, max, down) + rest;
    assert hits[0] == Event(key, now, On(down)) && hits[1..] == Hits(key, now, max - 1, down) + rest;
    WindowTouched(s, window, key, now, down);
    var renewed := Window(1, now + window);
    LastWindowCounts(s, key, renewed, Window(max, now + window), down);
    LiveHitsPass(WithWindow(s, key, renewed, down), window, key, max, now, max - 1, down, rest);
  }

  /** A window that elapses just after the interval begins: the bound of one window is met. */
  lemma BoundIsReached(s: Stores, window: int, key: string, max: int, start: int)
    requires 0 < max && 1 < window && Holds(s, key, false) && WindowOf(s, key, false) == Window(1, start + 1)
    ensures var hits := Hits(key, start, max - 1, false) + Hits(key, start + 1, max, false);
            (forall h <- hits :: Within(h.now, start, window)) && Passed(s, window, key, max, hits) == 2 * max - 1
  {
    hide Touch, Holds, WindowOf, WithWindow;
    var late := Hits(key, start + 1, max, false);
    LiveHitsPass(s, window, key, max, start, max - 1, false, late);
    assert late + [] == late;
    RenewedHitsPass(WithWindow(s, key, Window(max, start + 1), false), window, key, max, start + 1, false, []);
  }

  lemma AllWithin(a: seq<Event>, b: seq<Event>, start: int, window: int)
    requires (forall h <- a :: Within(h.now, start, window)) && forall h <- b :: Within(h.now, start, window)
    ensures forall h <- a + b :: Within(h.now, start, window)
  {
  }

  /** And twice that is met when the distributed store fails in between: its windows and those
      of the fallback each let their part pass. */
  lemma DoubleBoundIsReached(s: Stores, window: int, key: string, max: int, start: int)
    requires 0 < max && 1 < window && Holds(s, key, false) && Holds(s, key, true)
    requires WindowOf(s, key, false) == Window(1, start + 1) && WindowOf(s, key, true) == Window(1, start + 1)
    ensures var hits := Hits(key, start, max - 1, false) + (Hits(key, start, max - 1, true)
                        + (Hits(key, start + 1, max, false) + Hits(key, start + 1, max, true)));
            (forall h <- hits :: Within(h.now, start, window)) && Passed(s, window, key, max, hits) == 2 * (2 * max - 1)
  {
    hide Touch, Holds, WindowOf, WithWindow;
    var full := Window(max, start + 1);
    var last := Hits(key, start + 1, max, true);
    var third := Hits(key, start + 1, max, false) + last;
    AllWithin(Hits(key, start + 1, max, false), last, start, window);
    AllWithin(Hits(key, start, max - 1, true), third, start, window);
    AllWithin(Hits(key, start, max - 1, false), Hits(key, start, max - 1, true) + third, start, window);
    hide Hits;
    LiveHitsPass(s, window, key, max, start, max - 1, false, Hits(key, start, max - 1, true) + third);
    var s1 := WithWindow(s, key, full, false);
    LiveHitsPass(s1, window, key, max, start, max - 1, true, third);
    var s2 := WithWindow(s1, key, full, true);
    RenewedHitsPass(s2, window, key, max, start + 1, false, last);
    var s3 := WithWindow(s2, key, Window(max, start + 1 + window), false);
    assert last + [] == last;
    RenewedHitsPass(s3, window, key, max, start + 1, true, []);
  }

  // ---------------------------------------------------------------- refused attempts are charged

  function Level(s: Store, key: string, now: int): int {
    match s
    case InMemory(m) => if key in m.entries && now < m.entries[key].expiresAt then m.entries[key].count else 0
    case InRedis(r) => if key in r.counters && Alive(r.counters[key], now) then r.counters[key].count else 0
  }

  predicate RoomFor(s: Store, n: nat) {
    s.InMemory? ==> |s.memory.entries| + n <= s.memory.maxEntries
  }

  lemma TouchCharges(s: Stores, key: string, other: string, hit: string, now: int, later: int, window: int,
                     t: Trouble, n: nat)
    requires window > 0 && RoomFor(s.primary, n + 1) && Answers(s.primary, t.primary)
    ensures var next := Touch(s, hit, now, window, t).0;
            && RoomFor(next.primary, n) && SameShape(s, next)
            && Level(next.primary, hit, now) == Level(s.primary, hit, now) + 1
            && (other != hit ==> Level(next.primary, other, later) == Level(s.primary, other, later))
  {
  }

  /** The store that answers a hit. */
  function Answering(s: Stores, t: Trouble): Store {
    if Answers(s.primary, t.primary) then s.primary else InMemory(s.fallback)
  }

  /** In any state and under any failure of the primary store, a hit is counted by the store that
      answers it, or that store is full and answers its size, which is above every budget. */
  lemma CountedOrRefused(s: Stores, hit: string, now: int, window: int, t: Trouble)
    requires window > 0 && !t.fallbackFails
    ensures var (next, answer) := Touch(s, hit, now, window, t);
            var before, after := Answering(s, t), Answering(next, t);
            && answer.count.Some?
            && (|| Level(after, hit, now) == Level(before, hit, now) + 1 == answer.count.value
                || (&& before.InMemory? && Level(before, hit, now) == Level(after, hit, now) == 0
                    && answer.count.value == before.memory.maxEntries <= |before.memory.entries|))
  {
    RedisShape(if s.primary.InRedis? then s.primary.redis else Redis(false, map[]), hit, now, window, t.primary);
  }

  lemma KeysApart(id: Identity, a: Attempt)
    ensures KeyOf(id, a, Ip) != KeyOf(id, a, Account) && KeyOf(id, a, Account) != KeyOf(id, a, Combo)
    ensures KeyOf(id, a, Ip) != KeyOf(id, a, Combo)
  {
    assert KeyOf(id, a, Ip)[10] == 'i' && KeyOf(id, a, Account)[10] == 'a' && KeyOf(id, a, Combo)[10] == 'c';
  }

  /** The stores as an attempt finds them when it comes to a dimension. */
  function Reached(p: Policy, id: Identity, s: Stores, a: Attempt, d: Dimension): Stores {
    match d
    case Ip => s
    case Account => Hit(p, id, s, a, Ip).0
    case Combo => Hit(p, id, Hit(p, id, s, a, Ip).0, a, Account).0
  }

  /** A hit has been counted by the store that answers it, or that store is full and answers its
      size. */
  predicate Counted(before: Stores, after: Stores, answer: Answer, key: string, m: Moment) {
    var was, now := Answering(before, m.trouble), Answering(after, m.trouble);
    && answer.count.Some?
    && (|| Level(now, key, m.now) == Level(was, key, m.now) + 1 == answer.count.value
        || (was.InMemory? && answer.count.value == was.memory.maxEntries <= |was.memory.entries|))
  }

  predicate SameLevel(s: Stores, t: Stores, key: string, at: int) {
    Level(s.primary, key, at) == Level(t.primary, key, at)
    && Level(InMemory(s.fallback), key, at) == Level(InMemory(t.fallback), key, at)
  }

  /** Whether admitted or refused, and whatever fails in the primary store, an attempt that is
      not cut short is counted in each of its dimensions that the fallback can count, and nothing
      else in the attempt takes that back. */
  lemma RefusedStillCharged(p: Policy, id: Identity, s: Stores, a: Attempt, d: Dimension, at: int)
    requires Sound(p) && Uses(a, d) && !MomentOf(a, d).trouble.fallbackFails
    requires !CheckStep(p, id, s, a).1.verdict.Unavailable?
    requires a.ip.now <= at && a.account.now <= at && a.combo.now <= at
    ensures var before := Reached(p, id, s, a, d);
            var (after, answer) := Hit(p, id, before, a, d);
            Counted(before, after, answer, KeyOf(id, a, d), MomentOf(a, d))
            && SameLevel(after, CheckStep(p, id, s, a).0, KeyOf(id, a, d), at)
  {
    hide Touch, Level, KeyOf, Normalize;
    KeysApart(id, a);
    var key := KeyOf(id, a, d);
    var before := Reached(p, id, s, a, d);
    CountedOrRefused(before, key, MomentOf(a, d).now, p.window, MomentOf(a, d).trouble);
    var s1 := Hit(p, id, s, a, Ip).0;
    var s2 := Hit(p, id, s1, a, Account).0;
    if d.Ip? {
      OthersKeep(s1, key, KeyOf(id, a, Account), a.account, p.window, at);
    }
    if !d.Combo? {
      OthersKeep(s2, key, KeyOf(id, a, Combo), a.combo, p.window, at);
    }
  }

  lemma OthersKeep(s: Stores, key: string, hit: string, m: Moment, window: int, at: int)
    requires key != hit && m.now <= at
    ensures SameLevel(s, Touch(s, hit, m.now, window, m.trouble).0, key, at)
  {
  }

  /** As long as the primary store answers and has room, that is one more in each counter. */
  lemma ChargedByOne(p: Policy, id: Identity, s: Stores, a: Attempt, d: Dimension)
    requires Sound(p) && RoomFor(s.primary, 3) && Untroubled(s, a) && Uses(a, d)
    ensures var next := CheckStep(p, id, s, a).0;
            Level(next.primary, KeyOf(id, a, d), MomentOf(a, d).now) == Level(s.primary, KeyOf(id, a, d), MomentOf(a, d).now) + 1
  {
    hide Touch, Level, KeyOf, RoomFor;
    KeysApart(id, a);
    var key, t := KeyOf(id, a, d), MomentOf(a, d).now;
    Charge(p, id, s, a, Ip, key, t, 2);
    if Uses(a, Account) {
      var s1 := Hit(p, id, s, a, Ip).0;
      StillUntroubled(s, s1, a);
      Charge(p, id, s1, a, Account, key, t, 1);
      var s2 := Hit(p, id, s1, a, Account).0;
      StillUntroubled(s1, s2, a);
      Charge(p, id, s2, a, Combo, key, t, 0);
    }
  }

  lemma Charge(p: Policy, id: Identity, s: Stores, a: Attempt, d: Dimension, other: string, later: int, n: nat)
    requires p.window > 0 && RoomFor(s.primary, n + 1) && Untroubled(s, a)
    ensures var (next, answer) := Hit(p, id, s, a, d);
            && RoomFor(next.primary, n) && SameShape(s, next) && answer.count.Some?
            && Level(next.primary, KeyOf(id, a, d), MomentOf(a, d).now) == Level(s.primary, KeyOf(id, a, d), MomentOf(a, d).now) + 1
            && (other != KeyOf(id, a, d) ==> Level(next.primary, other, later) == Level(s.primary, other, later))
  {
    hide KeyOf, Level;
    TouchCharges(s, other, other, KeyOf(id, a, d), MomentOf(a, d).now, later, p.window, MomentOf(a, d).trouble, n);
  }

  // ---------------------------------------------------------------- who is admitted

  predicate HasRoom(s: Stores, n: nat) {
    RoomFor(s.primary, n) && RoomFor(InMemory(s.fallback), n)
  }

  lemma TouchCounts(s: Stores, hit: string, now: int, window: int, t: Trouble, other: string, later: int, n: nat)
    requires window > 0 && HasRoom(s, n + 1) && !t.fallbackFails
    ensures var (next, answer) := Touch(s, hit, now, window, t);
            && HasRoom(next, n) && SameShape(s, next)
            && answer == Answer(Some(Level(Answering(s, t), hit, now) + 1), !Answers(s.primary, t.primary))
            && (other != hit ==> SameLevel(s, next, other, later))
  {
  }

  lemma HitCounts(p: Policy, id: Identity, s: Stores, a: Attempt, d: Dimension, other: string, later: int, n: nat)
    requires p.window > 0 && HasRoom(s, n + 1) && !MomentOf(a, d).trouble.fallbackFails
    ensures var (next, answer) := Hit(p, id, s, a, d);
            var m := MomentOf(a, d);
            && HasRoom(next, n) && SameShape(s, next)
            && answer == Answer(Some(Level(Answering(s, m.trouble), KeyOf(id, a, d), m.now) + 1),
                                !Answers(s.primary, m.trouble.primary))
            && (other != KeyOf(id, a, d) ==> SameLevel(s, next, other, later))
  {
    hide KeyOf, Level, Answering, Answers, HasRoom, SameLevel, SameShape, Touch;
    TouchCounts(s, KeyOf(id, a, d), MomentOf(a, d).now, p.window, MomentOf(a, d).trouble, other, later, n);
  }

  lemma SameAnswering(s: Stores, next: Stores, t: Trouble, key: string, at: int)
    requires SameShape(s, next) && SameLevel(s, next, key, at)
    ensures Level(Answering(next, t), key, at) == Level(Answering(s, t), key, at)
    ensures Answers(next.primary, t.primary) <==> Answers(s.primary, t.primary)
  {
  }

  /** Whether the store that answers has counted fewer than `max` in the window so far. */
  predicate Below(id: Identity, s: Stores, a: Attempt, d: Dimension, max: int) {
    Level(Answering(s, MomentOf(a, d).trouble), KeyOf(id, a, d), MomentOf(a, d).now) < max
  }

  /** Exactly which attempts are admitted, as long as the stores have room, and the fallback works
      when it is needed: those whose three counters are below their budgets, in the primary store
      or in the fallback if that answers; any other is told the first that is not. */
  lemma VerdictExactly(p: Policy, id: Identity, s: Stores, a: Attempt)
    requires Sound(p) && HasRoom(s, 3)
    requires !a.ip.trouble.fallbackFails && !a.account.trouble.fallbackFails && !a.combo.trouble.fallbackFails
    ensures var decision, named := CheckStep(p, id, s, a).1, Normalize(a.rawAccount) != "";
            var ip := Below(id, s, a, Ip, p.ipMax);
            var account := named ==> Below(id, s, a, Account, p.accountMax);
            var combo := named ==> Below(id, s, a, Combo, p.comboMax);
            && (decision.verdict == Admitted <==> ip && account && combo)
            && (decision.verdict == Exhausted(Ip) <==> !ip)
            && (decision.verdict == Exhausted(Account) <==> ip && !account)
            && (decision.verdict == Exhausted(Combo) <==> ip && account && !combo)
            && (decision.degraded <==>
                  || !Answers(s.primary, a.ip.trouble.primary)
                  || (named && !(Answers(s.primary, a.account.trouble.primary) && Answers(s.primary, a.combo.trouble.primary))))
            && decision.retryAfter == p.window
  {
    hide Hit, Level, KeyOf, HasRoom, Answers, Answering, SameLevel, SameShape, Normalize;
    KeysApart(id, a);
    var account, combo := KeyOf(id, a, Account), KeyOf(id, a, Combo);
    HitCounts(p, id, s, a, Ip, account, a.account.now, 2);
    HitCounts(p, id, s, a, Ip, combo, a.combo.now, 2);
    var s1 := Hit(p, id, s, a, Ip).0;
    SameAnswering(s, s1, a.account.trouble, account, a.account.now);
    SameAnswering(s, s1, a.combo.trouble, combo, a.combo.now);
    HitCounts(p, id, s1, a, Account, combo, a.combo.now, 1);
    var s2 := Hit(p, id, s1, a, Account).0;
    SameAnswering(s1, s2, a.combo.trouble, combo, a.combo.now);
    HitCounts(p, id, s2, a, Combo, combo, a.combo.now, 0);
  }

  /** Exactly when an attempt is refused without a verdict: neither store can count its address. */
  lemma UnavailableExactly(p: Policy, id: Identity, s: Stores, a: Attempt)
    ensures CheckStep(p, id, s, a).1.verdict == Unavailable <==>
              && s.primary.InRedis? && (!s.primary.redis.connected || a.ip.trouble.primary != NoMishap)
              && a.ip.trouble.fallbackFails
  {
    hide KeyOf, Normalize;
  }

  /** With a hash that does not collide, two attempts share a counter exactly if they come from
      the same address, for the same account, or for the same pair of both. */
  lemma SharedCounters(id: Identity, a: Attempt, b: Attempt)
    requires forall x, y :: id.hash(x) == id.hash(y) ==> x == y
    requires '\U{1f}' !in id.clientIp(a.rawIp) && '\U{1f}' !in id.clientIp(b.rawIp)
    ensures var sameIp := id.clientIp(a.rawIp) == id.clientIp(b.rawIp);
            var sameAccount := Normalize(a.rawAccount) == Normalize(b.rawAccount);
            && (KeyOf(id, a, Ip) == KeyOf(id, b, Ip) <==> sameIp)
            && (KeyOf(id, a, Account) == KeyOf(id, b, Account) <==> sameAccount)
            && (KeyOf(id, a, Combo) == KeyOf(id, b, Combo) <==> sameIp && sameAccount)
    ensures forall d, e :: d != e ==> KeyOf(id, a, d) != KeyOf(id, b, e)
  {
    hide Normalize;
    SamePrefix("authlimit:ip:", id.hash(id.clientIp(a.rawIp)), id.hash(id.clientIp(b.rawIp)));
    SamePrefix("authlimit:acct:", id.hash(Normalize(a.rawAccount)), id.hash(Normalize(b.rawAccount)));
    var x, y := id.clientIp(a.rawIp), id.clientIp(b.rawIp);
    SamePrefix("authlimit:combo:", id.hash(x + "\U{1f}" + Normalize(a.rawAccount)),
               id.hash(y + "\U{1f}" + Normalize(b.rawAccount)));
    SamePair(x, Normalize(a.rawAccount), y, Normalize(b.rawAccount));
    forall d, e | d != e ensures KeyOf(id, a, d) != KeyOf(id, b, e) {
      assert KeyOf(id, a, d)[10] == match d case Ip => 'i' case Account => 'a' case Combo => 'c';
      assert KeyOf(id, b, e)[10] == match e case Ip => 'i' case Account => 'a' case Combo => 'c';
    }
  }

  lemma SamePrefix(prefix: string, s: string, t: string)
    ensures prefix + s == prefix + t <==> s == t
  {
    assert (prefix + s)[|prefix|..] == s && (prefix + t)[|prefix|..] == t;
  }

  lemma SamePair(a: string, b: string, c: string, d: string)
    requires '\U{1f}' !in a && '\U{1f}' !in c
    ensures a + "\U{1f}" + b == c + "\U{1f}" + d <==> a == c && b == d
  {
    var s, t := a + "\U{1f}" + b, c + "\U{1f}" + d;
    assert s[|a|] == '\U{1f}' && forall i :: 0 <= i < |a| ==> s[i] == a[i] != '\U{1f}';
    assert t[|c|] == '\U{1f}' && forall i :: 0 <= i < |c| ==> t[i] == c[i] != '\U{1f}';
    if s == t {
      assert |a| == |c|;
      assert a == s[..|a|] && c == t[..|c|];
      assert b == s[|a| + 1..] && d == t[|c| + 1..];
    }
  }

  /** A reset clears the account and the pair, never the address or anything else. */
  lemma ResetSparesOthers(id: Identity, s: Stores, rawIp: string, rawAccount: string, accountFails: bool,
                          comboFails: bool, key: string, now: int)
    requires Normalize(rawAccount) != ""
    ensures var account := Normalize(rawAccount);
            var accountKey, comboKey := AccountKey(id, account), ComboKey(id, id.clientIp(rawIp), account);
            var next := ResetStep(id, s, rawIp, rawAccount, accountFails, comboFails);
            && (key != accountKey && key != comboKey ==>
                  Level(next.primary, key, now) == Level(s.primary, key, now)
                  && Level(InMemory(next.fallback), key, now) == Level(InMemory(s.fallback), key, now))
            && (key == accountKey || key == comboKey ==>
                  Level(InMemory(next.fallback), key, now) == 0
                  && (s.primary.InMemory? || (s.primary.redis.connected && !accountFails && !comboFails) ==>
                        Level(next.primary, key, now) == 0))
  {
    hide Normalize, AccountKey, ComboKey;
  }

  // ---------------------------------------------------------------- the bounded map

  datatype Op = Increment(key: string, now: int) | Reset(key: string, now: int)

  function After(m: Memory, window: int, ops: seq<Op>): Memory
    decreases |ops|
  {
    if ops == [] then m
    else match ops[0]
      case Increment(key, now) => After(MemoryIncr(m, key, now, window).0, window, ops[1..])
      case Reset(key, _) => After(MemoryReset(m, key), window, ops[1..])
  }

  /** Over any hits and resets the memory store never outgrows its bound. */
  lemma {:induction false} MemoryStaysBounded(m: Memory, window: int, ops: seq<Op>)
    requires |m.entries| <= m.maxEntries
    ensures |After(m, window, ops).entries| <= After(m, window, ops).maxEntries == m.maxEntries
    decreases |ops|
  {
    if ops != [] {
      match ops[0]
      case Increment(key, now) =>
        SubsetSmaller(LiveOnly(m.entries, now).Keys, m.entries.Keys);
        MemoryStaysBounded(MemoryIncr(m, key, now, window).0, window, ops[1..]);
      case Reset(key, _) =>
        SubsetSmaller((m.entries - {key}).Keys, m.entries.Keys);
        MemoryStaysBounded(MemoryReset(m, key), window, ops[1..]);
    }
  }

  /** Exactly how a new key fares in a full store: it is counted if elapsed windows leave it room,
      and those are all gone then; else it is told the store's size. */
  lemma FullStoreExactly(m: Memory, key: string, now: int, window: int)
    requires key !in m.entries && |m.entries| >= m.maxEntries
    ensures var (next, count) := MemoryIncr(m, key, now, window);
            var live := map k | k in m.entries && now < m.entries[k].expiresAt :: m.entries[k];
            if |live| < m.maxEntries then count == 1 && next == Memory(live[key := Window(1, now + window)], m.maxEntries)
            else count == m.maxEntries && next == Memory(live, m.maxEntries)
  {
    assert LiveOnly(m.entries, now) == map k | k in m.entries && now < m.entries[k].expiresAt :: m.entries[k];
  }

  /** A hit never forgets a live window, however full the store is. */
  lemma LiveWindowsSurvive(m: Memory, hit: string, now: int, window: int, key: string)
    requires key in m.entries && now < m.entries[key].expiresAt
    ensures var next := MemoryIncr(m, hit, now, window).0;
            key in next.entries
            && next.entries[key] == Window(m.entries[key].count + if key == hit then 1 else 0, m.entries[key].expiresAt)
  {
  }

  // ---------------------------------------------------------------- parity

  function MemoryRun(m: Memory, window: int, ops: seq<Op>): seq<Option<int>>
    decreases |ops|
  {
    if ops == [] then []
    else match ops[0]
      case Increment(key, now) =>
        var (next, count) := MemoryIncr(m, key, now, window);
        [Some(count)] + MemoryRun(next, window, ops[1..])
      case Reset(key, _) => [None] + MemoryRun(MemoryReset(m, key), window, ops[1..])
  }

  function RedisRun(r: Redis, window: int, ops: seq<Op>): seq<Option<int>>
    decreases |ops|
  {
    if ops == [] then []
    else match ops[0]
      case Increment(key, now) =>
        var (next, count) := RedisIncr(r, key, now, window, NoMishap);
        [count] + RedisRun(next, window, ops[1..])
      case Reset(key, _) => [None] + RedisRun(RedisReset(r, key, false), window, ops[1..])
  }

  predicate Monotone(ops: seq<Op>) {
    forall i, j :: 0 <= i < j < |ops| ==> ops[i].now <= ops[j].now
  }

  /** Both stores hold the same live windows from some moment on. */
  ghost predicate Agree(m: Memory, r: Redis, since: int) {
    forall k, t {:trigger Level(InMemory(m), k, t)} {:trigger Level(InRedis(r), k, t)} :: t >= since ==>
      Level(InMemory(m), k, t) == Level(InRedis(r), k, t)
  }

  lemma AgreeIncr(m: Memory, r: Redis, key: string, now: int, window: int)
    requires Agree(m, r, now) && r.connected && window > 0
    requires key in m.entries || |m.entries| < m.maxEntries
    ensures var (m', a), (r', b) := MemoryIncr(m, key, now, window), RedisIncr(r, key, now, window, NoMishap);
            b == Some(a) && Agree(m', r', now)
  {
    assert Level(InMemory(m), key, now) == Level(InRedis(r), key, now);
    if key in m.entries && now < m.entries[key].expiresAt {
      assert Level(InMemory(m), key, m.entries[key].expiresAt) == Level(InRedis(r), key, m.entries[key].expiresAt);
    }
    var m', r' := MemoryIncr(m, key, now, window).0, RedisIncr(r, key, now, window, NoMishap).0;
    forall k, t | t >= now ensures Level(InMemory(m'), k, t) == Level(InRedis(r'), k, t) {
      assert Level(InMemory(m), k, t) == Level(InRedis(r), k, t);
    }
  }

  lemma AgreeReset(m: Memory, r: Redis, key: string, now: int)
    requires Agree(m, r, now) && r.connected
    ensures Agree(MemoryReset(m, key), RedisReset(r, key, false), now)
  {
    forall k, t | t >= now ensures Level(InMemory(MemoryReset(m, key)), k, t) == Level(InRedis(RedisReset(r, key, false)), k, t) {
      assert Level(InMemory(m), k, t) == Level(InRedis(r), k, t);
    }
  }

  lemma {:induction false} RunsAgree(m: Memory, r: Redis, window: int, ops: seq<Op>, keys: set<string>, since: int)
    requires r.connected && window > 0 && Monotone(ops) && Agree(m, r, since) && forall o <- ops :: o.now >= since && o.key in keys
    requires m.entries.Keys <= keys && |keys| <= m.maxEntries
    ensures MemoryRun(m, window, ops) == RedisRun(r, window, ops)
    decreases |ops|
  {
    hide Agree;
    if ops != [] {
      var o := ops[0];
      assert ops[0].key in keys;
      AgreeLater(m, r, since, o.now);
      forall p | p in ops[1..] ensures p.now >= o.now && p.key in keys {
        var i :| 0 <= i < |ops[1..]| && ops[1..][i] == p;
        assert ops[i + 1] == p;
      }
      SubsetSmaller(m.entries.Keys, keys);
      match o
      case Increment(key, now) =>
        AgreeIncr(m, r, key, now, window);
        RunsAgree(MemoryIncr(m, key, now, window).0, RedisIncr(r, key, now, window, NoMishap).0, window, ops[1..], keys, now);
      case Reset(key, now) =>
        AgreeReset(m, r, key, now);
        RunsAgree(MemoryReset(m, key), RedisReset(r, key, false), window, ops[1..], keys, now);
    }
  }

  lemma AgreeLater(m: Memory, r: Redis, since: int, later: int)
    requires Agree(m, r, since) && since <= later
    ensures Agree(m, r, later)
  {
  }

  /** As long as no more keys are used than the memory store may hold, the two stores answer
      alike to every sequence of hits and resets. */
  lemma StoresAgree(maxEntries: int, window: int, ops: seq<Op>)
    requires window > 0 && Monotone(ops) && |set o | o in ops :: o.key| <= maxEntries
    ensures MemoryRun(Memory(map[], maxEntries), window, ops) == RedisRun(Redis(true, map[]), window, ops)
  {
    if ops != [] {
      forall o | o in ops ensures o.now >= ops[0].now {
        var i :| 0 <= i < |ops| && ops[i] == o;
        assert i == 0 || ops[0].now <= ops[i].now;
      }
      RunsAgree(Memory(map[], maxEntries), Redis(true, map[]), window, ops, set o | o in ops :: o.key, ops[0].now);
    }
  }
}
