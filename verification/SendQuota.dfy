/** The daily send quota under interleaving: every reservation is a transaction of several
    statements, and only the lock on the tenant's subscription row orders them. */
module SendQuota {
  import opened Outcomes
  import opened SubscriptionStatus
  import opened Sums
  import opened SendLedger

  datatype Call = Call(tenant: nat, id: string, count: int)

  /** How far a reservation has come: its event id looked up, the subscription row locked and
      read, the use since the start of the day summed up and found to leave room. */
  datatype Phase = Idle | Looked(call: Call) | Locked(call: Call, limit: int) | Summed(call: Call, seen: int)

  /** Committed events, subscriptions, and the reservations under way. */
  datatype System = System(events: map<EventKey, Event>, plans: map<nat, Plan>, phases: map<nat, Phase>)

  datatype Step = Look(who: nat, call: Call) | Lock(who: nat) | SumUp(who: nat, now: int) | Insert(who: nat, now: int)
                | Abort(who: nat) | CancelStep(tenant: nat, id: string)
                | FinalizeStep(tenant: nat, id: string, accepted: int, now: int) | BounceStep(tenant: nat, id: string, now: int)

  function PhaseOf(s: System, who: nat): Phase {
    if who in s.phases then s.phases[who] else Idle
  }

  predicate Holds(p: Phase, tenant: nat) {
    (p.Locked? || p.Summed?) && p.call.tenant == tenant
  }

  /** Whether another transaction holds the lock on a tenant's subscription row. */
  predicate Taken(s: System, tenant: nat, who: nat) {
    exists other <- s.phases.Keys :: other != who && Holds(s.phases[other], tenant)
  }

  predicate Valid(c: Call) {
    c.tenant != 0 && c.id != "" && c.count > 0
  }

  predicate Known(events: map<EventKey, Event>, c: Call) {
    var k := EventKey(c.id, c.tenant);
    k in events && !events[k].kind.Bounce?
  }

  predicate Served(plans: map<nat, Plan>, tenant: nat) {
    tenant in plans && !Stopped(plans[tenant].status)
  }

  function TablesOf(s: System): Ledger {
    Ledger(s.events, map[], map[], map[], s.plans)
  }

  /** One statement of some transaction; a statement that has to wait for a lock, or that its
      transaction has not come to, does nothing. */
  ghost function Next(s: System, month: int -> int, step: Step): System {
    match step
    case Look(i, c) =>
      if PhaseOf(s, i).Idle? && Valid(c) && !Known(s.events, c) then s.(phases := s.phases[i := Looked(c)]) else s
    case Lock(i) =>
      var p := PhaseOf(s, i);
      if !p.Looked? || Taken(s, p.call.tenant, i) then s
      else if !Served(s.plans, p.call.tenant) then s.(phases := s.phases[i := Idle])
      else s.(phases := s.phases[i := Locked(p.call, s.plans[p.call.tenant].limit)])
    case SumUp(i, now) =>
      var p := PhaseOf(s, i);
      if !p.Locked? then s
      else
        var used := Total(month, UsedSince(p.call.tenant, Day(now)), s.events);
        s.(phases := s.phases[i := if p.limit - used < p.call.count then Idle else Summed(p.call, now)])
    case Insert(i, now) =>
      var p := PhaseOf(s, i);
      if !p.Summed? then s
      else
        var k := EventKey(p.call.id, p.call.tenant);
        s.(events := if k in s.events then s.events else s.events[k := Event(Reservation, p.call.count, now)],
           phases := s.phases[i := Idle])
    case Abort(i) => s.(phases := s.phases[i := Idle])
    case CancelStep(t, id) => s.(events := Cancel(TablesOf(s), t, id).events)
    case FinalizeStep(t, id, accepted, now) =>
      var r := Finalize(TablesOf(s), month, t, id, accepted, now);
      if r.Ok? then s.(events := r.value.events) else s
    case BounceStep(t, id, now) => s.(events := RecordBounced(TablesOf(s), t, id, now).events)
  }

  ghost function Run(s: System, month: int -> int, steps: seq<Step>): System
    decreases |steps|
  {
    if steps == [] then s else Run(Next(s, month, steps[0]), month, steps[1..])
  }

  /** The clock does not fall back to an earlier day within one reservation, and a reservation
      is finalised on its day with at most what was reserved. */
  predicate Fair(s: System, step: Step) {
    match step
    case Insert(i, now) => PhaseOf(s, i).Summed? ==> Day(PhaseOf(s, i).seen) <= Day(now)
    case FinalizeStep(t, id, accepted, now) =>
      var k := EventKey(id, t);
      k in s.events && s.events[k].kind.Reservation? && accepted > 0 ==>
        accepted <= s.events[k].count && Day(now) == Day(s.events[k].at)
    case _ => true
  }

  ghost predicate FairRun(s: System, month: int -> int, steps: seq<Step>)
    decreases |steps|
  {
    steps == [] || (Fair(s, steps[0]) && FairRun(Next(s, month, steps[0]), month, steps[1..]))
  }

  // ---------------------------------------------------------------- the invariant

  predicate Counted(events: map<EventKey, Event>) {
    forall k <- events.Keys :: events[k].kind.Bounce? || events[k].count > 0
  }

  ghost predicate WithinLimits(s: System, month: int -> int) {
    forall t: nat, d: int :: t in s.plans ==> Total(month, UsedOn(t, d), s.events) <= s.plans[t].limit
  }

  ghost predicate OneHolder(s: System) {
    forall i, j, t :: i in s.phases && j in s.phases && Holds(s.phases[i], t) && Holds(s.phases[j], t) ==> i == j
  }

  /** What a transaction that holds the lock has found is still true. */
  ghost predicate PhaseTrue(s: System, month: int -> int, p: Phase) {
    match p
    case Idle => true
    case Looked(c) => Valid(c)
    case Locked(c, limit) => Valid(c) && c.tenant in s.plans && limit == s.plans[c.tenant].limit
    case Summed(c, seen) =>
      && Valid(c) && c.tenant in s.plans
      && Total(month, UsedSince(c.tenant, Day(seen)), s.events) + c.count <= s.plans[c.tenant].limit
  }

  ghost predicate Inv(s: System, month: int -> int) {
    && Counted(s.events) && WithinLimits(s, month) && OneHolder(s)
    && forall i <- s.phases.Keys :: PhaseTrue(s, month, s.phases[i])
  }

  lemma OnWithinSince(month: int -> int, events: map<EventKey, Event>, t: nat, d: int, since: int)
    requires Counted(events) && since <= d
    ensures Total(month, UsedOn(t, d), events) <= Total(month, UsedSince(t, since), events)
  {
    SumMonotone(Weights(month, UsedOn(t, d), events), Weights(month, UsedSince(t, since), events));
  }

  /** A change of the events that adds to no day's use keeps the invariant. */
  lemma NothingAdded(s: System, month: int -> int, events: map<EventKey, Event>)
    requires Inv(s, month) && Counted(events)
    requires forall t: nat, d: int :: Total(month, UsedOn(t, d), events) <= Total(month, UsedOn(t, d), s.events)
    requires forall t: nat, d: int :: Total(month, UsedSince(t, d), events) <= Total(month, UsedSince(t, d), s.events)
    ensures Inv(s.(events := events), month)
  {
  }

  lemma PutKeeps(s: System, month: int -> int, k: EventKey, e: Event)
    requires Inv(s, month) && (e.kind.Bounce? || e.count > 0)
    requires forall q: Query :: q.UsedOn? || q.UsedSince? ==>
               Weight(month, q, k, e) <= if k in s.events then Weight(month, q, k, s.events[k]) else 0
    ensures Inv(s.(events := s.events[k := e]), month)
  {
    hide Weight, Total;
    forall q ensures Total(month, q, s.events[k := e])
                  == Total(month, q, s.events) + Weight(month, q, k, e)
                      - if k in s.events then Weight(month, q, k, s.events[k]) else 0 {
      TotalPut(month, q, s.events, k, e);
    }
    NothingAdded(s, month, s.events[k := e]);
  }

  lemma DropKeeps(s: System, month: int -> int, k: EventKey)
    requires Inv(s, month) && k in s.events
    ensures Inv(s.(events := s.events - {k}), month)
  {
    hide Total;
    forall q ensures Total(month, q, s.events - {k}) == Total(month, q, s.events) - Weight(month, q, k, s.events[k]) {
      TotalDrop(month, q, s.events, k);
    }
    NothingAdded(s, month, s.events - {k});
  }

  lemma PhaseKeeps(s: System, month: int -> int, i: nat, p: Phase)
    requires Inv(s, month) && PhaseTrue(s, month, p)
    requires forall t :: Holds(p, t) ==> !Taken(s, t, i)
    ensures Inv(s.(phases := s.phases[i := p]), month)
  {
  }

  /** Only the holder of a tenant's lock adds to that tenant's use, so what it found since it
      took the lock can only have become smaller. */
  lemma InsertKeeps(s: System, month: int -> int, i: nat, now: int)
    requires Inv(s, month) && Fair(s, Insert(i, now)) && PhaseOf(s, i).Summed?
    ensures Inv(Next(s, month, Insert(i, now)), month)
  {
    hide Total;
    var c, seen := s.phases[i].call, s.phases[i].seen;
    var k, e := EventKey(c.id, c.tenant), Event(Reservation, c.count, now);
    var released := s.(phases := s.phases[i := Idle]);
    PhaseKeeps(s, month, i, Idle);
    if k !in s.events {
      var next := Next(s, month, Insert(i, now));
      forall q ensures Total(month, q, next.events) == Total(month, q, s.events) + Weight(month, q, k, e) {
        TotalPut(month, q, s.events, k, e);
      }
      forall t: nat, d: int | t in s.plans ensures Total(month, UsedOn(t, d), next.events) <= s.plans[t].limit {
        if t == c.tenant && d == Day(now) {
          OnWithinSince(month, s.events, t, d, Day(seen));
        }
      }
      assert Counted(next.events) && OneHolder(next);
      forall j | j in next.phases ensures PhaseTrue(next, month, next.phases[j]) {
        assert j != i ==> !Holds(s.phases[j], c.tenant);
      }
    }
  }

  lemma StepKeeps(s: System, month: int -> int, step: Step)
    requires Inv(s, month) && Fair(s, step)
    ensures Inv(Next(s, month, step), month)
  {
    hide Total, WithinLimits, OneHolder;
    match step
    case Look(i, c) =>
      PhaseKeeps(s, month, i, Idle);
      if Valid(c) { PhaseKeeps(s, month, i, Looked(c)); }
    case Lock(i) =>
      var p := PhaseOf(s, i);
      PhaseKeeps(s, month, i, Idle);
      if p.Looked? && !Taken(s, p.call.tenant, i) && Served(s.plans, p.call.tenant) {
        PhaseKeeps(s, month, i, Locked(p.call, s.plans[p.call.tenant].limit));
      }
    case SumUp(i, now) =>
      var p := PhaseOf(s, i);
      PhaseKeeps(s, month, i, Idle);
      if p.Locked? {
        HolderAlone(s, i, p.call.tenant);
        if p.limit - Total(month, UsedSince(p.call.tenant, Day(now)), s.events) >= p.call.count {
          PhaseKeeps(s, month, i, Summed(p.call, now));
        }
      }
    case Insert(i, now) =>
      if PhaseOf(s, i).Summed? { InsertKeeps(s, month, i, now); }
    case Abort(i) => PhaseKeeps(s, month, i, Idle);
    case CancelStep(t, id) =>
      var k := EventKey(id, t);
      if k in s.events { DropKeeps(s, month, k); }
    case FinalizeStep(t, id, accepted, now) =>
      var k := EventKey(id, t);
      if k in s.events {
        DropKeeps(s, month, k);
        if s.events[k].kind.Reservation? && accepted > 0 { PutKeeps(s, month, k, Event(Send, accepted, now)); }
      }
    case BounceStep(t, id, now) =>
      var k := EventKey(id, t);
      if k !in s.events { PutKeeps(s, month, k, Event(Bounce, 1, now)); }
  }

  lemma HolderAlone(s: System, i: nat, t: nat)
    requires OneHolder(s) && i in s.phases && Holds(s.phases[i], t)
    ensures !Taken(s, t, i)
  {
  }

  /** However reservations interleave with each other, with cancellations, with bounces and
      with same-day finalisations, no tenant's day ever exceeds its limit. */
  lemma {:induction false} QuotaHolds(s: System, month: int -> int, steps: seq<Step>)
    requires Inv(s, month) && FairRun(s, month, steps)
    ensures Inv(Run(s, month, steps), month)
    decreases |steps|
  {
    hide Inv, Next, Fair;
    if steps != [] {
      StepKeeps(s, month, steps[0]);
      QuotaHolds(Next(s, month, steps[0]), month, steps[1..]);
    }
  }

  lemma StartsWithin(month: int -> int, plans: map<nat, Plan>)
    requires forall t <- plans.Keys :: plans[t].limit >= 0
    ensures Inv(System(map[], plans, map[]), month)
  {
  }

  // ---------------------------------------------------------------- exactly which steps keep the limits

  /** The row a finalisation turns into a send. */
  predicate Finalises(s: System, step: Step) {
    && step.FinalizeStep? && step.tenant != 0 && step.id != "" && step.accepted > 0
    && var k := EventKey(step.id, step.tenant); k in s.events && s.events[k].kind.Reservation?
  }

  predicate Inserts(s: System, step: Step) {
    && step.Insert? && PhaseOf(s, step.who).Summed?
    && var c := PhaseOf(s, step.who).call; EventKey(c.id, c.tenant) !in s.events
  }

  /** The day the step writes to has room for what it writes. */
  ghost predicate HasRoom(s: System, month: int -> int, step: Step) {
    && (Inserts(s, step) ==>
          var c := PhaseOf(s, step.who).call;
          c.tenant in s.plans ==> Total(month, UsedOn(c.tenant, Day(step.now)), s.events) + c.count <= s.plans[c.tenant].limit)
    && (Finalises(s, step) ==>
          var e := s.events[EventKey(step.id, step.tenant)];
          var freed := if Day(e.at) == Day(step.now) then e.count else 0;
          step.tenant in s.plans ==>
            Total(month, UsedOn(step.tenant, Day(step.now)), s.events) + step.accepted - freed <= s.plans[step.tenant].limit)
  }

  /** Events and calls have positive counts. */
  predicate AllCounted(s: System) {
    Counted(s.events) && forall i <- s.phases.Keys :: !s.phases[i].Idle? ==> Valid(s.phases[i].call)
  }

  lemma PutWithinExactly(s: System, month: int -> int, k: EventKey, e: Event)
    requires Counted(s.events) && WithinLimits(s, month) && !e.kind.Bounce? && e.count > 0
    ensures var sameDay := k in s.events && !s.events[k].kind.Bounce? && Day(s.events[k].at) == Day(e.at);
            var freed := if sameDay then s.events[k].count else 0;
            WithinLimits(s.(events := s.events[k := e]), month) <==>
            (k.tenant in s.plans ==>
               Total(month, UsedOn(k.tenant, Day(e.at)), s.events) + e.count - freed <= s.plans[k.tenant].limit)
  {
    hide Total;
    var next := s.(events := s.events[k := e]);
    forall q ensures Total(month, q, next.events)
                  == Total(month, q, s.events) + Weight(month, q, k, e)
                      - if k in s.events then Weight(month, q, k, s.events[k]) else 0 {
      TotalPut(month, q, s.events, k, e);
    }
    if WithinLimits(next, month) && k.tenant in s.plans {
      assert Total(month, UsedOn(k.tenant, Day(e.at)), next.events) <= s.plans[k.tenant].limit;
    }
  }

  lemma DropWithin(s: System, month: int -> int, k: EventKey)
    requires Counted(s.events) && WithinLimits(s, month) && k in s.events
    ensures WithinLimits(s.(events := s.events - {k}), month)
  {
    hide Total;
    forall q ensures Total(month, q, s.events - {k}) == Total(month, q, s.events) - Weight(month, q, k, s.events[k]) {
      TotalDrop(month, q, s.events, k);
    }
  }

  lemma BounceWithin(s: System, month: int -> int, k: EventKey, e: Event)
    requires WithinLimits(s, month) && k !in s.events && e.kind.Bounce?
    ensures WithinLimits(s.(events := s.events[k := e]), month)
  {
    hide Total;
    forall q ensures Total(month, q, s.events[k := e]) == Total(month, q, s.events) + Weight(month, q, k, e) {
      TotalPut(month, q, s.events, k, e);
    }
  }

  lemma StepCounted(s: System, month: int -> int, step: Step)
    requires AllCounted(s)
    ensures AllCounted(Next(s, month, step))
  {
    hide Total;
  }

  /** From within all limits, a step stays within them exactly when it has room. */
  lemma StepWithinExactly(s: System, month: int -> int, step: Step)
    requires AllCounted(s) && WithinLimits(s, month)
    ensures WithinLimits(Next(s, month, step), month) <==> HasRoom(s, month, step)
  {
    hide Total;
    if Inserts(s, step) {
      var c := PhaseOf(s, step.who).call;
      PutWithinExactly(s, month, EventKey(c.id, c.tenant), Event(Reservation, c.count, step.now));
    } else if Finalises(s, step) {
      PutWithinExactly(s, month, EventKey(step.id, step.tenant), Event(Send, step.accepted, step.now));
    } else if step.FinalizeStep? || step.CancelStep? {
      var k := EventKey(step.id, step.tenant);
      if k in s.events { DropWithin(s, month, k); }
    } else if step.BounceStep? {
      var k := EventKey(step.id, step.tenant);
      if k !in s.events { BounceWithin(s, month, k, Event(Bounce, 1, step.now)); }
    }
  }

  ghost predicate AlwaysWithin(s: System, month: int -> int, steps: seq<Step>)
    decreases |steps|
  {
    WithinLimits(s, month) && (steps == [] || AlwaysWithin(Next(s, month, steps[0]), month, steps[1..]))
  }

  ghost predicate AlwaysRoom(s: System, month: int -> int, steps: seq<Step>)
    decreases |steps|
  {
    steps == [] || (HasRoom(s, month, steps[0]) && AlwaysRoom(Next(s, month, steps[0]), month, steps[1..]))
  }

  /** Exactly which runs stay within all limits throughout, fair or not. */
  lemma {:induction false} RunsWithinExactly(s: System, month: int -> int, steps: seq<Step>)
    requires AllCounted(s) && WithinLimits(s, month)
    ensures AlwaysWithin(s, month, steps) <==> AlwaysRoom(s, month, steps)
    decreases |steps|
  {
    hide Next, WithinLimits, HasRoom, AllCounted;
    if steps != [] {
      StepCounted(s, month, steps[0]);
      StepWithinExactly(s, month, steps[0]);
      if WithinLimits(Next(s, month, steps[0]), month) {
        RunsWithinExactly(Next(s, month, steps[0]), month, steps[1..]);
      }
    }
  }

  // ---------------------------------------------------------------- one reservation per id

  /** How many of the steps write a reservation for `k`. */
  ghost function Grants(s: System, month: int -> int, k: EventKey, steps: seq<Step>): int
    decreases |steps|
  {
    if steps == [] then 0
    else
      var next := Next(s, month, steps[0]);
      (if steps[0].Insert? && k in next.events && (k !in s.events || next.events[k] != s.events[k]) then 1 else 0)
      + Grants(next, month, k, steps[1..])
  }

  predicate Frees(step: Step, k: EventKey) {
    && (step.CancelStep? || step.FinalizeStep?) && step.id == k.id && step.tenant == k.tenant
    && (step.FinalizeStep? ==> step.accepted <= 0)
  }

  /** Until its event is cancelled, an id is reserved at most once, and never again once it is
      in the table; no reservation ever replaces a row. */
  lemma {:induction false} ReservedOnce(s: System, month: int -> int, k: EventKey, steps: seq<Step>)
    requires forall step <- steps :: !Frees(step, k)
    ensures Grants(s, month, k, steps) <= if k in s.events then 0 else 1
    decreases |steps|
  {
    hide Total;
    if steps != [] {
      var next := Next(s, month, steps[0]);
      assert !Frees(steps[0], k);
      assert k in s.events ==> k in next.events;
      ReservedOnce(next, month, k, steps[1..]);
    }
  }

  lemma RunFour(s: System, month: int -> int, a: Step, b: Step, c: Step, d: Step)
    ensures Run(s, month, [a, b, c, d]) == Next(Next(Next(Next(s, month, a), month, b), month, c), month, d)
  {
    hide Next;
    assert [a, b, c, d][1..] == [b, c, d] && [b, c, d][1..] == [c, d] && [c, d][1..] == [d] && [d][1..] == [];
    var s2 := Next(Next(s, month, a), month, b);
    var s3 := Next(s2, month, c);
    assert Run(s3, month, [d]) == Run(Next(s3, month, d), month, []);
    assert Run(s2, month, [c, d]) == Run(s3, month, [d]);
    assert Run(Next(s, month, a), month, [b, c, d]) == Run(s2, month, [c, d]);
  }

  /** Undisturbed, the statements of a reservation do what the reservation as a whole does. */
  lemma SerialReservation(s: System, month: int -> int, i: nat, c: Call, seen: int, now: int)
    requires PhaseOf(s, i).Idle? && !Taken(s, c.tenant, i)
    ensures var after := Run(s, month, [Look(i, c), Lock(i), SumUp(i, seen), Insert(i, now)]);
            after.events == Reserve(TablesOf(s), month, c.tenant, c.id, c.count, seen, now).0.events && PhaseOf(after, i).Idle?
  {
    hide Total, Run;
    RunFour(s, month, Look(i, c), Lock(i), SumUp(i, seen), Insert(i, now));
    assert !Taken(Next(s, month, Look(i, c)), c.tenant, i);
  }

  /** Finalising on a later day moves the use to that day unchecked. */
  lemma LaterFinalisationOverruns(month: int -> int, limit: int)
    requires limit > 0
    ensures var first, second := EventKey("a", 1), EventKey("b", 1);
            var s := System(map[first := Event(Reservation, limit, 0), second := Event(Reservation, limit, SECONDS_PER_DAY)],
                            map[1 := Plan(Active, limit)], map[]);
            var next := Next(s, month, FinalizeStep(1, "a", limit, SECONDS_PER_DAY));
            (forall d :: Total(month, UsedOn(1, d), s.events) <= limit) && Total(month, UsedOn(1, 1), next.events) == 2 * limit
  {
    hide Total;
    var first, second := EventKey("a", 1), EventKey("b", 1);
    var a, b, c := Event(Reservation, limit, 0), Event(Reservation, limit, SECONDS_PER_DAY), Event(Send, limit, SECONDS_PER_DAY);
    forall q ensures Total(month, q, map[first := a]) == Weight(month, q, first, a) {
      NoEvents(month, q);
      TotalPut(month, q, map[], first, a);
      assert map[][first := a] == map[first := a];
    }
    forall q ensures Total(month, q, map[first := a, second := b]) == Weight(month, q, first, a) + Weight(month, q, second, b) {
      TotalPut(month, q, map[first := a], second, b);
      assert map[first := a][second := b] == map[first := a, second := b];
    }
    TotalPut(month, UsedOn(1, 1), map[first := a, second := b], first, c);
  }

  lemma NoEvents(month: int -> int, q: Query)
    ensures Total(month, q, map[]) == 0
  {
  }
}
