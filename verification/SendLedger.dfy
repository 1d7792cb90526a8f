/** The ledger of outgoing mail: reservations, sends and bounces by event id, and the day and
    month counters derived from them. */
module SendLedger {
  import opened Outcomes
  import opened SubscriptionStatus
  import opened Sums

  datatype Kind = Reservation | Send | Bounce

  datatype Event = Event(kind: Kind, count: int, at: int)

  datatype EventKey = EventKey(id: string, tenant: nat)

  datatype DayKey = DayKey(tenant: nat, day: int)

  datatype MonthKey = MonthKey(tenant: nat, month: int)

  datatype Plan = Plan(status: Status, limit: int)

  /** The tables; `month` gives the month a day belongs to. */
  datatype Ledger = Ledger(events: map<EventKey, Event>, sends: map<DayKey, int>, usage: map<MonthKey, int>,
                           bounces: map<DayKey, int>, plans: map<nat, Plan>)

  const SECONDS_PER_DAY := 86400

  function Day(at: int): int {
    at / SECONDS_PER_DAY
  }

  // ---------------------------------------------------------------- totals

  datatype Query = SendsOn(tenant: nat, day: int) | SendsIn(tenant: nat, month: int) | BouncesOn(tenant: nat, day: int)
                 | UsedOn(tenant: nat, day: int) | UsedSince(tenant: nat, day: int)

  /** What an event adds to a total. */
  function Weight(month: int -> int, q: Query, k: EventKey, e: Event): int {
    if k.tenant != q.tenant then 0
    else match q
      case SendsOn(_, day) => if e.kind.Send? && Day(e.at) == day then e.count else 0
      case SendsIn(_, m) => if e.kind.Send? && month(Day(e.at)) == m then e.count else 0
      case BouncesOn(_, day) => if e.kind.Bounce? && Day(e.at) == day then 1 else 0
      case UsedOn(_, day) => if !e.kind.Bounce? && Day(e.at) == day then e.count else 0
      case UsedSince(_, day) => if !e.kind.Bounce? && Day(e.at) >= day then e.count else 0
  }

  function Weights(month: int -> int, q: Query, events: map<EventKey, Event>): map<EventKey, int> {
    map k | k in events :: Weight(month, q, k, events[k])
  }

  ghost function Total(month: int -> int, q: Query, events: map<EventKey, Event>): int {
    Sum(Weights(month, q, events))
  }

  lemma TotalPut(month: int -> int, q: Query, events: map<EventKey, Event>, k: EventKey, e: Event)
    ensures Total(month, q, events[k := e])
         == Total(month, q, events) + Weight(month, q, k, e) - if k in events then Weight(month, q, k, events[k]) else 0
  {
    hide Weight;
    SumPut(Weights(month, q, events), k, Weight(month, q, k, e));
    assert Weights(month, q, events[k := e]) == Weights(month, q, events)[k := Weight(month, q, k, e)];
  }

  lemma TotalDrop(month: int -> int, q: Query, events: map<EventKey, Event>, k: EventKey)
    requires k in events
    ensures Total(month, q, events - {k}) == Total(month, q, events) - Weight(month, q, k, events[k])
  {
    hide Weight;
    SumSplit(Weights(month, q, events), k);
    assert Weights(month, q, events - {k}) == Weights(month, q, events) - {k};
  }

  // ---------------------------------------------------------------- the operations on the tables

  function Get<K>(m: map<K, int>, k: K): int {
    if k in m then m[k] else 0
  }

  function Count(l: Ledger, month: int -> int, tenant: nat, n: int, now: int): Ledger {
    var d, m := DayKey(tenant, Day(now)), MonthKey(tenant, month(Day(now)));
    l.(sends := l.sends[d := Get(l.sends, d) + n], usage := l.usage[m := Get(l.usage, m) + n])
  }

  datatype Refusal = InvalidTenant | InvalidEvent | InvalidCount | NoSubscription | NotServed(status: Status) | OverLimit

  datatype Reply = Refused(why: Refusal) | Existing(count: int) | Granted(count: int)

  datatype Failure = Database | NoSuchEvent | NotAReservation

  /** `seen` is when the day's use is looked up, `now` when the reservation is dated. */
  ghost function Reserve(l: Ledger, month: int -> int, tenant: nat, id: string, count: int, seen: int,
                         now: int): (Ledger, Reply) {
    var k := EventKey(id, tenant);
    if tenant == 0 then (l, Refused(InvalidTenant))
    else if id == "" then (l, Refused(InvalidEvent))
    else if count <= 0 then (l, Refused(InvalidCount))
    else if k in l.events && !l.events[k].kind.Bounce? then (l, Existing(l.events[k].count))
    else if tenant !in l.plans then (l, Refused(NoSubscription))
    else if Stopped(l.plans[tenant].status) then (l, Refused(NotServed(l.plans[tenant].status)))
    else if l.plans[tenant].limit - Total(month, UsedSince(tenant, Day(seen)), l.events) < count then (l, Refused(OverLimit))
    else if k in l.events then (l, Granted(count))
    else (l.(events := l.events[k := Event(Reservation, count, now)]), Granted(count))
  }

  function Finalize(l: Ledger, month: int -> int, tenant: nat, id: string, accepted: int, now: int): Result<Ledger,
                    Failure> {
    var k := EventKey(id, tenant);
    if id == "" || tenant == 0 then Ok(l)
    else if k !in l.events then Err(NoSuchEvent)
    else match l.events[k].kind
      case Send => Ok(l)
      case Bounce => Err(NotAReservation)
      case Reservation =>
        if accepted <= 0 then Ok(l.(events := l.events - {k}))
        else Ok(Count(l.(events := l.events[k := Event(Send, accepted, now)]), month, tenant, accepted, now))
  }

  function Cancel(l: Ledger, tenant: nat, id: string): Ledger {
    var k := EventKey(id, tenant);
    if id == "" || tenant == 0 || k !in l.events || !l.events[k].kind.Reservation? then l
    else l.(events := l.events - {k})
  }

  function Record(l: Ledger, month: int -> int, tenant: nat, id: string, count: int, now: int): Ledger {
    var k := EventKey(id, tenant);
    if id == "" || count <= 0 || tenant == 0 || k in l.events then l
    else Count(l.(events := l.events[k := Event(Send, count, now)]), month, tenant, count, now)
  }

  function RecordBounced(l: Ledger, tenant: nat, id: string, now: int): Ledger {
    var k, d := EventKey(id, tenant), DayKey(tenant, Day(now));
    if id == "" || tenant == 0 || k in l.events then l
    else l.(events := l.events[k := Event(Bounce, 1, now)], bounces := l.bounces[d := Get(l.bounces, d) + 1])
  }

  // ---------------------------------------------------------------- the enforcer

  /** Every operation is one transaction: `healthy` tells whether all its statements and its
      commit succeed. */
  class SendEnforcer {
    var events: map<EventKey, Event>
    var sends: map<DayKey, int>
    var usage: map<MonthKey, int>
    var bounces: map<DayKey, int>
    const plans: map<nat, Plan>
    const month: int -> int

    function Tables(): Ledger
      reads this
    {
      Ledger(events, sends, usage, bounces, plans)
    }

    constructor (plans: map<nat, Plan>, month: int -> int)
      ensures Tables() == Ledger(map[], map[], map[], map[], plans) && this.month == month
    {
      events, sends, usage, bounces := map[], map[], map[], map[];
      this.plans, this.month := plans, month;
    }

    method SumUsed(tenant: nat, day: int) returns (used: int)
      ensures used == Total(month, UsedSince(tenant, day), events)
    {
      hide Weight;
      var todo := events;
      used := 0;
      while todo != map[]
        invariant todo.Keys <= events.Keys && forall k <- todo.Keys :: todo[k] == events[k]
        invariant used + Total(month, UsedSince(tenant, day), todo) == Total(month, UsedSince(tenant, day), events)
        decreases |todo|
      {
        var k :| k in todo;
        TotalDrop(month, UsedSince(tenant, day), todo, k);
        used := used + Weight(month, UsedSince(tenant, day), k, todo[k]);
        todo := todo - {k};
      }
    }

    method ReserveSend(tenant: nat, id: string, count: int, seen: int, now: int, healthy: bool)
      returns (r: Result<Reply, Failure>)
      modifies this
      ensures healthy ==> r.Ok? && (Tables(), r.value) == Reserve(old(Tables()), month, tenant, id, count, seen, now)
      ensures r.Err? ==> Tables() == old(Tables()) && !healthy && r.error == Database
      ensures r.Ok? ==> (Tables(), r.value) == Reserve(old(Tables()), month, tenant, id, count, seen, now)
    {
      if tenant == 0 { return Ok(Refused(InvalidTenant)); }
      if id == "" { return Ok(Refused(InvalidEvent)); }
      if count <= 0 { return Ok(Refused(InvalidCount)); }
      if !healthy { return Err(Database); }
      var k := EventKey(id, tenant);
      if k in events && (events[k].kind == Send || events[k].kind == Reservation) { return Ok(Existing(events[k].count)); }
      if tenant !in plans { return Ok(Refused(NoSubscription)); }
      var status, limit := plans[tenant].status, plans[tenant].limit;
      if status == Suspended || status == Cancelled || status == Expired { return Ok(Refused(NotServed(status))); }
      var used := SumUsed(tenant, Day(seen));
      var remaining := limit - used;
      if remaining < count { return Ok(Refused(OverLimit)); }
      if k !in events {
        events := events[k := Event(Reservation, count, now)];
      }
      r := Ok(Granted(count));
    }

    method AddToCounters(tenant: nat, n: int, now: int)
      modifies this`sends, this`usage
      ensures Tables() == Count(old(Tables()), month, tenant, n, now)
    {
      var d, m := DayKey(tenant, Day(now)), MonthKey(tenant, month(Day(now)));
      sends := if d in sends then sends[d := sends[d] + n] else sends[d := n];
      usage := if m in usage then usage[m := usage[m] + n] else usage[m := n];
    }

    method FinalizeSendReservation(tenant: nat, id: string, accepted: int, now: int, healthy: bool)
      returns (failure: Option<Failure>)
      modifies this
      ensures failure.None? ==> Finalize(old(Tables()), month, tenant, id, accepted, now) == Ok(Tables())
      ensures failure.Some? ==> Tables() == old(Tables()) && (healthy || failure.value == Database)
      ensures failure.Some? && healthy ==> Finalize(old(Tables()), month, tenant, id, accepted, now) == Err(failure.value)
    {
      if id == "" || tenant == 0 { return None; }
      if !healthy { return Some(Database); }
      var k := EventKey(id, tenant);
      if k !in events { return Some(NoSuchEvent); }
      if events[k].kind == Send { return None; }
      if events[k].kind != Reservation { return Some(NotAReservation); }
      if accepted <= 0 {
        events := events - {k};
        return None;
      }
      events := events[k := Event(Send, accepted, now)];
      AddToCounters(tenant, accepted, now);
      failure := None;
    }

    method CancelSendReservation(tenant: nat, id: string, healthy: bool) returns (ok: bool)
      modifies this`events
      ensures Tables() == if ok then Cancel(old(Tables()), tenant, id) else old(Tables())
      ensures healthy ==> ok
    {
      if id == "" || tenant == 0 { return true; }
      if !healthy { return false; }
      var k := EventKey(id, tenant);
      if k in events && events[k].kind == Reservation {
        events := events - {k};
      }
      ok := true;
    }

    method RecordSend(tenant: nat, id: string, count: int, now: int, healthy: bool) returns (ok: bool)
      modifies this
      ensures Tables() == if ok then Record(old(Tables()), month, tenant, id, count, now) else old(Tables())
      ensures healthy ==> ok
    {
      if id == "" || count <= 0 || tenant == 0 { return true; }
      if !healthy { return false; }
      ok := true;
      var k := EventKey(id, tenant);
      if k in events { return; }
      events := events[k := Event(Send, count, now)];
      AddToCounters(tenant, count, now);
    }

    method RecordBounce(tenant: nat, id: string, now: int, healthy: bool) returns (ok: bool)
      modifies this
      ensures Tables() == if ok then RecordBounced(old(Tables()), tenant, id, now) else old(Tables())
      ensures healthy ==> ok
    {
      if id == "" || tenant == 0 { return true; }
      if !healthy { return false; }
      ok := true;
      var k, d := EventKey(id, tenant), DayKey(tenant, Day(now));
      if k in events { return; }
      events := events[k := Event(Bounce, 1, now)];
      bounces := if d in bounces then bounces[d := bounces[d] + 1] else bounces[d := 1];
    }
  }

  // ---------------------------------------------------------------- conservation

  /** Every counter is the sum it stands for. */
  ghost predicate Balanced(l: Ledger, month: int -> int) {
    && (forall t: nat, d: int :: Get(l.sends, DayKey(t, d)) == Total(month, SendsOn(t, d), l.events))
    && (forall t: nat, m: int :: Get(l.usage, MonthKey(t, m)) == Total(month, SendsIn(t, m), l.events))
    && (forall t: nat, d: int :: Get(l.bounces, DayKey(t, d)) == Total(month, BouncesOn(t, d), l.events))
  }

  datatype Op = ReserveOp(tenant: nat, id: string, count: int, seen: int, now: int)
              | FinalizeOp(tenant: nat, id: string, accepted: int, now: int)
              | CancelOp(tenant: nat, id: string)
              | RecordOp(tenant: nat, id: string, count: int, now: int)
              | BounceOp(tenant: nat, id: string, now: int)

  ghost function Apply(l: Ledger, month: int -> int, op: Op): Ledger {
    match op
    case ReserveOp(t, id, count, seen, now) => Reserve(l, month, t, id, count, seen, now).0
    case FinalizeOp(t, id, accepted, now) =>
      var r := Finalize(l, month, t, id, accepted, now);
      if r.Ok? then r.value else l
    case CancelOp(t, id) => Cancel(l, t, id)
    case RecordOp(t, id, count, now) => Record(l, month, t, id, count, now)
    case BounceOp(t, id, now) => RecordBounced(l, t, id, now)
  }

  ghost function Run(l: Ledger, month: int -> int, ops: seq<Op>): Ledger
    decreases |ops|
  {
    if ops == [] then l else Run(Apply(l, month, ops[0]), month, ops[1..])
  }

  ghost predicate PutAddsUp(l: Ledger, month: int -> int, k: EventKey, e: Event) {
    forall q :: Total(month, q, l.events[k := e])
             == Total(month, q, l.events) + Weight(month, q, k, e)
                      - if k in l.events then Weight(month, q, k, l.events[k]) else 0
  }

  lemma PutTotals(l: Ledger, month: int -> int, k: EventKey, e: Event)
    ensures PutAddsUp(l, month, k, e)
  {
    hide Total, Weight;
    forall q ensures Total(month, q, l.events[k := e])
                  == Total(month, q, l.events) + Weight(month, q, k, e)
                      - if k in l.events then Weight(month, q, k, l.events[k]) else 0 {
      TotalPut(month, q, l.events, k, e);
    }
  }

  lemma BalancedReservation(l: Ledger, month: int -> int, k: EventKey, e: Event)
    requires Balanced(l, month) && k !in l.events && e.kind.Reservation?
    ensures Balanced(l.(events := l.events[k := e]), month)
  {
    hide Total;
    PutTotals(l, month, k, e);
  }

  lemma BalancedSend(l: Ledger, month: int -> int, k: EventKey, e: Event)
    requires Balanced(l, month) && (k in l.events ==> l.events[k].kind.Reservation?) && e.kind.Send?
    ensures Balanced(Count(l.(events := l.events[k := e]), month, k.tenant, e.count, e.at), month)
  {
    hide Total;
    PutTotals(l, month, k, e);
  }

  lemma BalancedBounce(l: Ledger, month: int -> int, k: EventKey, e: Event)
    requires Balanced(l, month) && k !in l.events && e.kind.Bounce?
    ensures var d := DayKey(k.tenant, Day(e.at));
            Balanced(l.(events := l.events[k := e], bounces := l.bounces[d := Get(l.bounces, d) + 1]), month)
  {
    hide Total;
    PutTotals(l, month, k, e);
  }

  lemma BalancedDrop(l: Ledger, month: int -> int, k: EventKey)
    requires Balanced(l, month) && k in l.events && l.events[k].kind.Reservation?
    ensures Balanced(l.(events := l.events - {k}), month)
  {
    hide Total;
    forall q ensures Total(month, q, l.events - {k}) == Total(month, q, l.events) - Weight(month, q, k, l.events[k]) {
      TotalDrop(month, q, l.events, k);
    }
  }

  lemma ApplyBalanced(l: Ledger, month: int -> int, op: Op)
    requires Balanced(l, month)
    ensures Balanced(Apply(l, month, op), month)
  {
    hide Balanced, Count;
    var k := EventKey(op.id, op.tenant);
    match op
    case ReserveOp(t, id, count, _, now) =>
      if k !in l.events { BalancedReservation(l, month, k, Event(Reservation, count, now)); }
    case FinalizeOp(t, id, accepted, now) =>
      if k in l.events && l.events[k].kind.Reservation? {
        BalancedDrop(l, month, k);
        BalancedSend(l, month, k, Event(Send, accepted, now));
      }
    case CancelOp(t, id) =>
      if k in l.events && l.events[k].kind.Reservation? { BalancedDrop(l, month, k); }
    case RecordOp(t, id, count, now) =>
      if k !in l.events { BalancedSend(l, month, k, Event(Send, count, now)); }
    case BounceOp(t, id, now) =>
      if k !in l.events { BalancedBounce(l, month, k, Event(Bounce, 1, now)); }
  }

  /** After any run of operations the day, month and bounce counters equal what the events of
      that day and month add up to. */
  lemma {:induction false} RunBalanced(l: Ledger, month: int -> int, ops: seq<Op>)
    requires Balanced(l, month)
    ensures Balanced(Run(l, month, ops), month)
    decreases |ops|
  {
    hide Balanced, Apply;
    if ops != [] {
      ApplyBalanced(l, month, ops[0]);
      RunBalanced(Apply(l, month, ops[0]), month, ops[1..]);
    }
  }

  lemma EmptyBalanced(month: int -> int, plans: map<nat, Plan>)
    ensures Balanced(Ledger(map[], map[], map[], map[], plans), month)
  {
  }

  predicate SameCall(a: Op, b: Op) {
    && a.id == b.id && a.tenant == b.tenant && a.ReserveOp? == b.ReserveOp? && a.FinalizeOp? == b.FinalizeOp?
    && a.CancelOp? == b.CancelOp? && a.RecordOp? == b.RecordOp?
  }

  /** As long as its event is there, a call that is retried changes nothing more, whatever the
      time and the count it is retried with. */
  lemma RetryChangesNothing(l: Ledger, month: int -> int, op: Op, again: Op)
    requires SameCall(op, again) && EventKey(op.id, op.tenant) in Apply(l, month, op).events
    ensures Apply(Apply(l, month, op), month, again) == Apply(l, month, op)
  {
    hide Total;
  }

  /** A granted id has its reservation, except an id that belongs to a bounce: that one is
      granted without one. */
  lemma GrantedMeansReserved(l: Ledger, month: int -> int, tenant: nat, id: string, count: int, seen: int, now: int)
    ensures var (after, reply) := Reserve(l, month, tenant, id, count, seen, now);
            var k := EventKey(id, tenant);
            reply.Granted? ==>
              && (k !in l.events <==> k in after.events && after.events[k] == Event(Reservation, count, now) && after != l)
              && (k in l.events <==> after == l && l.events[k].kind.Bounce?)
  {
  }

  /** The second half of a finalisation that has read a reservation: its guarded update changes
      the row only if it still is one, but the counters are raised in any case. */
  function FinishFinalize(l: Ledger, month: int -> int, tenant: nat, id: string, accepted: int, now: int): Ledger {
    var k := EventKey(id, tenant);
    var updated := if k in l.events && l.events[k].kind.Reservation?
                   then l.(events := l.events[k := Event(Send, accepted, now)]) else l;
    Count(updated, month, tenant, accepted, now)
  }

  /** So of overlapping finalisations only the first keeps the counters right: exactly when the
      reservation is still there, the counters equal their sums afterwards. */
  lemma OverlappingFinalisation(l: Ledger, month: int -> int, tenant: nat, id: string, accepted: int, now: int)
    requires Balanced(l, month) && accepted > 0
    ensures var k := EventKey(id, tenant);
            Balanced(FinishFinalize(l, month, tenant, id, accepted, now), month) <==>
            k in l.events && l.events[k].kind.Reservation?
  {
    hide Total;
    var k, d := EventKey(id, tenant), DayKey(tenant, Day(now));
    if k in l.events && l.events[k].kind.Reservation? {
      BalancedSend(l, month, k, Event(Send, accepted, now));
    } else {
      assert Get(l.sends, d) == Total(month, SendsOn(tenant, Day(now)), l.events);
      assert Get(FinishFinalize(l, month, tenant, id, accepted, now).sends, d) == Get(l.sends, d) + accepted;
    }
  }

  // ---------------------------------------------------------------- who may send, and how much

  /** A day is that of the UTC calendar. */
  lemma DayExactly(at: int, d: int)
    ensures Day(at) == d <==> d * 86400 <= at < (d + 1) * 86400
  {
  }

  /** What a single event counts for in each total; a total of more events is their sum. */
  lemma TotalOfOne(month: int -> int, k: EventKey, e: Event, d: int)
    ensures var one, mine, today := map[k := e], k.tenant, d * 86400 <= e.at < (d + 1) * 86400;
            && Total(month, SendsOn(mine, d), one) == (if e.kind == Send && today then e.count else 0)
            && Total(month, BouncesOn(mine, d), one) == (if e.kind == Bounce && today then 1 else 0)
            && Total(month, UsedOn(mine, d), one) == (if e.kind != Bounce && today then e.count else 0)
            && Total(month, UsedSince(mine, d), one) == (if e.kind != Bounce && d * 86400 <= e.at then e.count else 0)
            && (today ==> forall m :: Total(month, SendsIn(mine, m), one) == if e.kind == Send && month(d) == m then e.count else 0)
            && forall q: Query :: q.tenant != mine ==> Total(month, q, one) == 0
  {
    hide Total, Weight, Day;
    forall q ensures Total(month, q, map[k := e]) == Weight(month, q, k, e) {
      TotalPut(month, q, map[], k, e);
      assert Total(month, q, map[]) == 0 by {
        TotalOfNone(month, q);
      }
    }
    WeightsExactly(month, k, e, d);
  }

  lemma TotalOfNone(month: int -> int, q: Query)
    ensures Total(month, q, map[]) == 0
  {
  }

  lemma WeightsExactly(month: int -> int, k: EventKey, e: Event, d: int)
    ensures var mine, today := k.tenant, d * 86400 <= e.at < (d + 1) * 86400;
            && Weight(month, SendsOn(mine, d), k, e) == (if e.kind == Send && today then e.count else 0)
            && Weight(month, BouncesOn(mine, d), k, e) == (if e.kind == Bounce && today then 1 else 0)
            && Weight(month, UsedOn(mine, d), k, e) == (if e.kind != Bounce && today then e.count else 0)
            && Weight(month, UsedSince(mine, d), k, e) == (if e.kind != Bounce && d * 86400 <= e.at then e.count else 0)
            && (today ==> forall m ::
                  Weight(month, SendsIn(mine, m), k, e) == if e.kind == Send && month(d) == m then e.count else 0)
            && forall q: Query :: q.tenant != mine ==> Weight(month, q, k, e) == 0
  {
  }

  /** Exactly which subscriptions may send: not the suspended, cancelled and expired ones, which
      are told their status, and all the others. */
  lemma ServedExactly(l: Ledger, month: int -> int, tenant: nat, id: string, count: int, seen: int, now: int)
    requires tenant != 0 && id != "" && count > 0 && EventKey(id, tenant) !in l.events && tenant in l.plans
    ensures var (after, reply) := Reserve(l, month, tenant, id, count, seen, now);
            var status := l.plans[tenant].status;
            if status in {Suspended, Cancelled, Expired} then after == l && reply == Refused(NotServed(status))
            else !(reply.Refused? && reply.why.NotServed?)
  {
  }

  /** Exactly when a reservation is granted, and what it is told otherwise. */
  lemma ReplyExactly(l: Ledger, month: int -> int, tenant: nat, id: string, count: int, seen: int, now: int)
    ensures var (after, reply) := Reserve(l, month, tenant, id, count, seen, now);
            var k := EventKey(id, tenant);
            var valid, known := tenant != 0 && id != "" && count > 0, k in l.events && l.events[k].kind != Bounce;
            && (reply == Refused(InvalidTenant) <==> tenant == 0)
            && (reply == Refused(InvalidEvent) <==> tenant != 0 && id == "")
            && (reply == Refused(InvalidCount) <==> tenant != 0 && id != "" && count <= 0)
            && (reply.Existing? <==> valid && known) && (reply.Existing? ==> reply.count == l.events[k].count)
            && (reply == Refused(NoSubscription) <==> valid && !known && tenant !in l.plans)
            && (reply.Granted? <==>
                  && valid && !known && tenant in l.plans
                  && l.plans[tenant].status in {Trialing, Active, PastDue, GracePeriod}
                  && Total(month, UsedSince(tenant, Day(seen)), l.events) + count <= l.plans[tenant].limit)
            && (reply.Granted? ==> reply.count == count) && (!reply.Granted? ==> after == l)
  {
    hide Total, Day;
  }

  /** No operation touches another event, or a plan. */
  lemma OthersKept(l: Ledger, month: int -> int, op: Op, k: EventKey)
    requires k != EventKey(op.id, op.tenant)
    ensures var next := Apply(l, month, op);
            next.plans == l.plans && (k in next.events <==> k in l.events) && (k in l.events ==> next.events[k] == l.events[k])
  {
    hide Total, Day;
  }

  /** What a finalisation does to its event: only a reservation changes, to a send of what was
      accepted, counted on that day, or to nothing if nothing was. */
  lemma FinalisedExactly(l: Ledger, month: int -> int, tenant: nat, id: string, accepted: int, now: int)
    requires tenant != 0 && id != ""
    ensures var k, r := EventKey(id, tenant), Finalize(l, month, tenant, id, accepted, now);
            && (r.Err? <==> k !in l.events || l.events[k].kind == Bounce)
            && (r.Ok? && l.events[k].kind == Send ==> r.value == l)
            && (r.Ok? && l.events[k].kind == Reservation ==>
                  if accepted <= 0 then r.value == l.(events := l.events - {k})
                  else
                    var d, m := DayKey(tenant, Day(now)), MonthKey(tenant, month(Day(now)));
                    && r.value.events == l.events[k := Event(Send, accepted, now)]
                    && r.value.sends == l.sends[d := (if d in l.sends then l.sends[d] else 0) + accepted]
                    && r.value.usage == l.usage[m := (if m in l.usage then l.usage[m] else 0) + accepted])
  {
    hide Day;
  }

  /** A cancellation removes a reservation and nothing else; a send or a bounce is recorded once. */
  lemma RecordedExactly(l: Ledger, month: int -> int, tenant: nat, id: string, count: int, now: int)
    requires tenant != 0 && id != ""
    ensures var k := EventKey(id, tenant);
            && (k in Cancel(l, tenant, id).events <==> k in l.events && l.events[k].kind != Reservation)
            && (k !in l.events && count > 0 ==> var next := Record(l, month, tenant, id, count, now);
                                                k in next.events && next.events[k] == Event(Send, count, now))
            && (k !in l.events ==> var next := RecordBounced(l, tenant, id, now);
                                   k in next.events && next.events[k] == Event(Bounce, 1, now))
            && (k in l.events ==> Record(l, month, tenant, id, count, now) == l == RecordBounced(l, tenant, id, now))
  {
  }
}
