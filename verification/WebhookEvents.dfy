/** Events pushed by payment providers: claiming an event and applying its change to the
    database are one transaction, so that each event takes effect once. */
module WebhookEvents {
  import opened Outcomes
  import opened Text

  datatype EventKey = EventKey(provider: string, id: string)

  datatype EventRow = EventRow(eventType: string, idempotencyKey: string, receivedAt: int, processedAt: Option<int>)

  /** The table of events and all the rest of the database. */
  datatype Db<D> = Db(events: map<EventKey, EventRow>, data: D)

  /** A delivered event as the handler passes it on. */
  datatype Claim = Claim(provider: string, id: string, eventType: string, idempotencyKey: string, receivedAt: Option<int>)

  /** The change an event makes; it may refuse. */
  datatype Change<!D> = NoChange | Change(apply: D -> Option<D>)

  datatype Outcome = Committed | AlreadyProcessed | Failed(why: Reason)

  datatype Reason = NoProvider | KeyTaken | ChangeFailed | Database

  /** What the surroundings contribute to one delivery: the time, the random key, and whether
      every statement and the commit succeed. */
  datatype Circumstances = Circumstances(now: int, randomKey: string, healthy: bool)

  function KeyOf(c: Claim): EventKey {
    EventKey(Normalize(c.provider), c.id)
  }

  function IdempotencyKeyOf(c: Claim, randomKey: string): string {
    if c.idempotencyKey == "" then randomKey else Normalize(c.idempotencyKey)
  }

  /** Another event of the provider has the idempotency key. */
  predicate Clashes(events: map<EventKey, EventRow>, k: EventKey, idempotencyKey: string) {
    exists other <- events.Keys :: other.provider == k.provider && other != k && events[other].idempotencyKey == idempotencyKey
  }

  function Changed<D>(change: Change<D>, data: D): Option<D> {
    if change.NoChange? then Some(data) else change.apply(data)
  }

  /** One delivery as a whole. */
  function Process<D>(db: Db<D>, c: Claim, change: Change<D>, at: Circumstances, postgres: bool): (Db<D>, Outcome) {
    var k, key := KeyOf(c), IdempotencyKeyOf(c, at.randomKey);
    if k.provider == "" then (db, Failed(NoProvider))
    else if !at.healthy then (db, Failed(Database))
    else if k in db.events then (db, AlreadyProcessed)
    else if Clashes(db.events, k, key) then (db, if postgres then Failed(KeyTaken) else AlreadyProcessed)
    else
      var data := Changed(change, db.data);
      if data.None? then (db, Failed(ChangeFailed))
      else
        var row := EventRow(c.eventType, key, if c.receivedAt.Some? then c.receivedAt.value else at.now, Some(at.now));
        (Db(db.events[k := row], data.value), Committed)
  }

  // ---------------------------------------------------------------- the service

  /** The record of an event while it is handled. */
  class WebhookEventRecord {
    const id: string
    const eventType: string
    var provider: string
    var idempotencyKey: string
    var receivedAt: Option<int>

    function Claimed(): Claim
      reads this
    {
      Claim(provider, id, eventType, idempotencyKey, receivedAt)
    }

    constructor (c: Claim)
      ensures Claimed() == c
    {
      id, eventType, provider, idempotencyKey, receivedAt := c.id, c.eventType, c.provider, c.idempotencyKey, c.receivedAt;
    }
  }

  class WebhookService<D(0)> {
    var events: map<EventKey, EventRow>
    var data: D
    const postgres: bool

    function Tables(): Db<D>
      reads this
    {
      Db(events, data)
    }

    constructor (data: D, postgres: bool)
      ensures Tables() == Db(map[], data) && this.postgres == postgres
    {
      this.events, this.data, this.postgres := map[], data, postgres;
    }

    /** Claims the event in the transaction's copy of the table; the record is rewritten in
        any case. */
    method RecordEvent(rec: WebhookEventRecord, claimed: map<EventKey, EventRow>, at: Circumstances)
      returns (failure: Option<Outcome>, next: map<EventKey, EventRow>)
      modifies rec
      ensures KeyOf(rec.Claimed()) == KeyOf(old(rec.Claimed())) && rec.provider == KeyOf(rec.Claimed()).provider
      ensures var c, k := old(rec.Claimed()), KeyOf(old(rec.Claimed()));
              var key := IdempotencyKeyOf(c, at.randomKey);
              failure == if k.provider == "" then Some(Failed(NoProvider))
                         else if k in claimed then Some(AlreadyProcessed)
                         else if Clashes(claimed, k, key) then Some(if postgres then Failed(KeyTaken) else AlreadyProcessed)
                         else None
      ensures failure.None? ==>
                var c := old(rec.Claimed());
                next == claimed[KeyOf(c) := EventRow(c.eventType, IdempotencyKeyOf(c, at.randomKey),
                                                     if c.receivedAt.Some? then c.receivedAt.value else at.now, None)]
    {
      hide Normalize;
      NormalizeTwice(rec.provider);
      next := claimed;
      if rec.receivedAt.None? {
        rec.receivedAt := Some(at.now);
      }
      rec.provider := Normalize(rec.provider);
      if rec.provider == "" { return Some(Failed(NoProvider)), next; }
      rec.idempotencyKey := if rec.idempotencyKey == "" then at.randomKey else Normalize(rec.idempotencyKey);
      var k := EventKey(rec.provider, rec.id);
      if k in claimed { return Some(AlreadyProcessed), next; }
      if Clashes(claimed, k, rec.idempotencyKey) {
        return Some(if postgres then Failed(KeyTaken) else AlreadyProcessed), next;
      }
      next := claimed[k := EventRow(rec.eventType, rec.idempotencyKey, rec.receivedAt.value, None)];
      failure := None;
    }

    /** Marks the rows of this provider, normalised once more, and id. */
    static method MarkProcessed(events: map<EventKey, EventRow>, id: string, provider: string, now: int)
      returns (next: map<EventKey, EventRow>)
      ensures next.Keys == events.Keys
      ensures forall k <- next.Keys ::
                next[k] == if k == EventKey(Normalize(provider), id) then events[k].(processedAt := Some(now)) else events[k]
    {
      var k := EventKey(Normalize(provider), id);
      next := if k in events then events[k := events[k].(processedAt := Some(now))] else events;
    }

    /** Claims the event, applies its change, marks it and commits. */
    method ProcessEvent(rec: WebhookEventRecord, change: Change<D>, at: Circumstances) returns (outcome: Outcome)
      modifies this, rec
      ensures at.healthy || outcome.Committed? ==>
                (Tables(), outcome) == Process(old(Tables()), old(rec.Claimed()), change, at, postgres)
      ensures !outcome.Committed? ==> Tables() == old(Tables())
    {
      hide Normalize, Clashes;
      var failure, claimed := RecordEvent(rec, events, at);
      if failure.Some? { return failure.value; }
      var changed := Changed(change, data);
      if changed.None? { return Failed(ChangeFailed); }
      var marked := MarkProcessed(claimed, rec.id, rec.provider, at.now);
      if !at.healthy { return Failed(Database); }
      ghost var k := KeyOf(old(rec.Claimed()));
      assert k == EventKey(Normalize(rec.provider), rec.id);
      assert marked == events[k := claimed[k].(processedAt := Some(at.now))];
      events, data := marked, changed.value;
      outcome := Committed;
    }
  }

  // ---------------------------------------------------------------- once, over any run

  datatype Delivery<!D> = Delivery(claim: Claim, change: Change<D>, at: Circumstances)

  function After<D>(db: Db<D>, inbox: seq<Delivery<D>>, postgres: bool): Db<D>
    decreases |inbox|
  {
    if inbox == [] then db else After(Process(db, inbox[0].claim, inbox[0].change, inbox[0].at, postgres).0, inbox[1..], postgres)
  }

  /** How many deliveries commit the change of an event. */
  function Commits<D>(db: Db<D>, inbox: seq<Delivery<D>>, postgres: bool, k: EventKey): int
    decreases |inbox|
  {
    if inbox == [] then 0
    else
      var (next, outcome) := Process(db, inbox[0].claim, inbox[0].change, inbox[0].at, postgres);
      (if outcome.Committed? && KeyOf(inbox[0].claim) == k then 1 else 0) + Commits(next, inbox[1..], postgres, k)
  }

  /** The data after applying exactly the changes that were committed, in order. */
  function Applied<D>(db: Db<D>, inbox: seq<Delivery<D>>, postgres: bool, data: D): Option<D>
    decreases |inbox|
  {
    if inbox == [] then Some(data)
    else
      var (next, outcome) := Process(db, inbox[0].claim, inbox[0].change, inbox[0].at, postgres);
      var changed := if outcome.Committed? then Changed(inbox[0].change, data) else Some(data);
      if changed.None? then None else Applied(next, inbox[1..], postgres, changed.value)
  }

  /** Over any run, with any failures, the change of an event is committed once if the run
      brought its row into the table and never otherwise; the data are what those changes
      make of the data at the start. */
  lemma {:induction false} CommittedOnce<D>(db: Db<D>, inbox: seq<Delivery<D>>, postgres: bool, k: EventKey)
    ensures Commits(db, inbox, postgres, k) == if k !in db.events && k in After(db, inbox, postgres).events then 1 else 0
    ensures k in db.events ==> k in After(db, inbox, postgres).events
    ensures Applied(db, inbox, postgres, db.data) == Some(After(db, inbox, postgres).data)
    decreases |inbox|
  {
    hide Normalize, Clashes;
    if inbox != [] {
      CommittedOnce(Process(db, inbox[0].claim, inbox[0].change, inbox[0].at, postgres).0, inbox[1..], postgres, k);
    }
  }

  /** A delivery commits exactly when its event and its idempotency key are new and nothing
      fails; otherwise the database is as it was. */
  lemma CommitsExactly<D>(db: Db<D>, d: Delivery<D>, postgres: bool)
    ensures var (next, outcome) := Process(db, d.claim, d.change, d.at, postgres);
            var k := KeyOf(d.claim);
            && (outcome.Committed? <==>
                && k.provider != "" && d.at.healthy && k !in db.events
                && !Clashes(db.events, k, IdempotencyKeyOf(d.claim, d.at.randomKey)) && Changed(d.change, db.data).Some?)
            && (outcome.Committed? <==> k in next.events && k !in db.events)
            && (!outcome.Committed? ==> next == db)
  {
  }

  /** The same in a provider's terms: events are told apart by provider in normal form and id,
      and of two with one idempotency key only one commits. Every other event keeps its row. */
  lemma EventsApart<D>(db: Db<D>, c: Claim, change: Change<D>, at: Circumstances, postgres: bool)
    ensures var (next, outcome) := Process(db, c, change, at, postgres);
            var k := EventKey(Normalize(c.provider), c.id);
            var key := if c.idempotencyKey == "" then at.randomKey else Normalize(c.idempotencyKey);
            var taken := exists j <- db.events.Keys :: j != k && j.provider == k.provider && db.events[j].idempotencyKey == key;
            && (outcome == Failed(NoProvider) <==> k.provider == "")
            && (outcome == Failed(Database) <==> k.provider != "" && !at.healthy)
            && (outcome == AlreadyProcessed <==> k.provider != "" && at.healthy && (k in db.events || (taken && !postgres)))
            && (outcome == Failed(KeyTaken) <==> k.provider != "" && at.healthy && k !in db.events && taken && postgres)
            && (outcome == Failed(ChangeFailed) <==>
                  && k.provider != "" && at.healthy && k !in db.events && !taken
                  && change.Change? && change.apply(db.data).None?)
            && (outcome.Committed? ==>
                  && next.events.Keys == db.events.Keys + {k} && (forall j <- db.events.Keys :: next.events[j] == db.events[j])
                  && next.events[k].eventType == c.eventType && next.events[k].idempotencyKey == key
                  && next.events[k].processedAt == Some(at.now)
                  && next.events[k].receivedAt == (if c.receivedAt.Some? then c.receivedAt.value else at.now)
                  && next.data == if change.Change? then change.apply(db.data).value else db.data)
  {
    hide Normalize;
  }

  /** A failed delivery leaves nothing behind, and whatever is delivered before it is retried,
      the event's change is committed once in the end, exactly if one of those deliveries has
      committed it or nothing of theirs stands in the way of the retry. */
  lemma RetryCommits<D>(db: Db<D>, failed: Delivery<D>, between: seq<Delivery<D>>, retry: Delivery<D>, postgres: bool)
    requires Process(db, failed.claim, failed.change, failed.at, postgres).1 == Failed(ChangeFailed)
          || Process(db, failed.claim, failed.change, failed.at, postgres).1 == Failed(Database)
    requires retry.claim == failed.claim && KeyOf(retry.claim) !in db.events && retry.at.healthy
    ensures var k, inbox, mid := KeyOf(retry.claim), [failed] + between + [retry], After(db, between, postgres);
            && (Commits(db, inbox, postgres, k) == 1 <==>
                || k in mid.events
                || (!Clashes(mid.events, k, IdempotencyKeyOf(retry.claim, retry.at.randomKey))
                    && Changed(retry.change, mid.data).Some?))
            && After(db, inbox, postgres).data ==
               if Commits(db, inbox, postgres, k) == 1 && k !in mid.events then Changed(retry.change, mid.data).value else mid.data
  {
    hide Normalize, Clashes, Process, Commits;
    var k, inbox, mid := KeyOf(retry.claim), [failed] + between + [retry], After(db, between, postgres);
    CommitsExactly(db, failed, postgres);
    CommitsExactly(mid, retry, postgres);
    assert inbox[0] == failed && inbox[1..] == between + [retry];
    AfterSnoc(db, between, retry, postgres);
    CommittedOnce(db, inbox, postgres, k);
    ProviderNamed(db, failed, postgres);
    CommitEffect(mid, retry, postgres);
  }

  lemma {:induction false} AfterSnoc<D>(db: Db<D>, inbox: seq<Delivery<D>>, d: Delivery<D>, postgres: bool)
    ensures After(db, inbox + [d], postgres)
         == Process(After(db, inbox, postgres), d.claim, d.change, d.at, postgres).0
    decreases |inbox|
  {
    hide Process;
    if inbox == [] {
      assert (inbox + [d])[1..] == [];
    } else {
      assert (inbox + [d])[0] == inbox[0] && (inbox + [d])[1..] == inbox[1..] + [d];
      AfterSnoc(Process(db, inbox[0].claim, inbox[0].change, inbox[0].at, postgres).0, inbox[1..], d, postgres);
    }
  }

  lemma ProviderNamed<D>(db: Db<D>, d: Delivery<D>, postgres: bool)
    requires Process(db, d.claim, d.change, d.at, postgres).1 == Failed(ChangeFailed)
          || Process(db, d.claim, d.change, d.at, postgres).1 == Failed(Database)
    ensures KeyOf(d.claim).provider != ""
  {
    hide Normalize, Clashes;
  }

  lemma CommitEffect<D>(db: Db<D>, d: Delivery<D>, postgres: bool)
    ensures var (next, outcome) := Process(db, d.claim, d.change, d.at, postgres);
            outcome.Committed? ==> Changed(d.change, db.data) == Some(next.data)
  {
    hide Normalize, Clashes;
  }

  /** An event that shares the idempotency key of an earlier one is answered as processed by
      the single-connection database although its change is never made. */
  lemma SharedKeySwallowed<D>(db: Db<D>, first: Delivery<D>, second: Delivery<D>)
    requires Process(db, first.claim, first.change, first.at, false).1 == Committed
    requires KeyOf(second.claim).provider == KeyOf(first.claim).provider && second.claim.id != first.claim.id && second.at.healthy
    requires first.claim.idempotencyKey == second.claim.idempotencyKey != ""
    ensures var next := Process(db, first.claim, first.change, first.at, false).0;
            Process(next, second.claim, second.change, second.at, false) == (next, AlreadyProcessed)
  {
  }

  // ---------------------------------------------------------------- deliveries side by side

  /** A transaction between its claim and its end. */
  datatype Pending = Pending(key: EventKey, idempotencyKey: string)

  /** Committed events with their idempotency keys, claims under way, and the log of commits. */
  datatype System = System(events: map<EventKey, string>, pending: map<nat, Pending>, log: seq<EventKey>)

  datatype Step = Begin(who: nat, key: EventKey, idempotencyKey: string) | Commit(who: nat) | Rollback(who: nat)

  predicate Conflicts(a: Pending, key: EventKey, idempotencyKey: string) {
    a.key == key || (a.key.provider == key.provider && a.idempotencyKey == idempotencyKey)
  }

  /** A claim waits for a conflicting one that is under way, and gives up on a committed one. */
  predicate MayClaim(s: System, key: EventKey, idempotencyKey: string) {
    && (forall k <- s.events.Keys :: !Conflicts(Pending(k, s.events[k]), key, idempotencyKey))
    && (forall i <- s.pending.Keys :: !Conflicts(s.pending[i], key, idempotencyKey))
  }

  function Next(s: System, step: Step): System {
    match step
    case Begin(i, k, key) =>
      if i !in s.pending && MayClaim(s, k, key) then s.(pending := s.pending[i := Pending(k, key)]) else s
    case Commit(i) =>
      if i !in s.pending then s
      else
        var p := s.pending[i];
        System(s.events[p.key := p.idempotencyKey], s.pending - {i}, s.log + [p.key])
    case Rollback(i) => s.(pending := s.pending - {i})
  }

  function Run(s: System, steps: seq<Step>): System {
    if steps == [] then s else Next(Run(s, steps[..|steps| - 1]), steps[|steps| - 1])
  }

  ghost predicate Apart(s: System) {
    && (forall i <- s.pending.Keys :: s.pending[i].key !in s.events)
    && (forall i, j :: i in s.pending && j in s.pending && i != j ==> s.pending[i].key != s.pending[j].key)
    && (forall i, j :: 0 <= i < j < |s.log| ==> s.log[i] != s.log[j])
    && (forall k :: k in s.log <==> k in s.events)
    && KeysOnce(s)
  }

  /** No two events of a provider, claimed or committed, have one idempotency key. */
  ghost predicate KeysOnce(s: System) {
    && (forall j, k :: j in s.events && k in s.events && j.provider == k.provider && s.events[j] == s.events[k] ==> j == k)
    && (forall i, k :: i in s.pending && k in s.events && s.pending[i].key.provider == k.provider ==>
          s.pending[i].idempotencyKey != s.events[k])
    && (forall i, j :: i in s.pending && j in s.pending && i != j && s.pending[i].key.provider == s.pending[j].key.provider ==>
          s.pending[i].idempotencyKey != s.pending[j].idempotencyKey)
  }

  lemma NextKeysOnce(s: System, step: Step)
    requires KeysOnce(s)
    ensures KeysOnce(Next(s, step))
  {
  }

  lemma NextApart(s: System, step: Step)
    requires Apart(s)
    ensures Apart(Next(s, step))
  {
    hide KeysOnce;
    NextKeysOnce(s, step);
  }

  /** However deliveries overlap, no event is committed twice, and the committed events are
      exactly those in the table, no two of a provider with one idempotency key. */
  lemma {:induction false} CommittedOnceSideBySide(steps: seq<Step>)
    ensures var s := Run(System(map[], map[], []), steps);
            && (forall i, j :: 0 <= i < j < |s.log| ==> s.log[i] != s.log[j])
            && (forall k :: k in s.log <==> k in s.events) && Apart(s)
            && (forall j, k :: j in s.events && k in s.events && j.provider == k.provider && s.events[j] == s.events[k] ==> j == k)
  {
    hide Next;
    if steps != [] {
      var n := |steps| - 1;
      CommittedOnceSideBySide(steps[..n]);
      NextApart(Run(System(map[], map[], []), steps[..n]), steps[n]);
    }
  }
}
