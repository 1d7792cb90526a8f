/** The subscription of a tenant: one row for life, created, renewed in place, moved between
    its states and backfilled. */
module Subscriptions {
  import opened Outcomes
  import opened SubscriptionStatus

  datatype Plan = Plan(storageMb: int, sendLimitDay: int)

  datatype Subscription = Subscription(
    tenant: nat, planId: string, status: Status, interval: string, trialEndsAt: Option<int>,
    periodStart: int, periodEnd: int, cancelledAt: Option<int>, pastDueSince: Option<int>,
    graceEndsAt: Option<int>, suspendedAt: Option<int>, storageMb: int, sendLimitDay: int,
    createdAt: int, updatedAt: int)

  datatype BillingError = PlanNotFound | AlreadySubscribed | NotFound | InvalidTransition | Database

  const DAY := 86400
  const PLAN_FREE := "free"
  const INTERVAL_MONTHLY := "monthly"
  const PLAN_MAPPING: map<string, string> :=
    map["free" := "free", "starter" := "starter", "business" := "business", "enterprise" := "enterprise", "smb" := "free"]

  function ValidTargets(from: Status): set<Status> {
    match from
    case Trialing => {Active, PastDue, Cancelled, Expired}
    case Active => {PastDue, Cancelled, Expired}
    case PastDue => {Active, GracePeriod, Suspended, Cancelled}
    case GracePeriod => {Active, Suspended, Cancelled, Expired}
    case Suspended => {Active, Cancelled, Expired}
    case Cancelled => {Expired}
    case Expired => {}
  }

  // ---------------------------------------------------------------- what is written to a row

  /** What the terms of a new or renewed subscription come from. */
  datatype Terms = Terms(planId: string, plan: Plan, interval: string, trialDays: int, now: int, monthLater: int)

  function StatusOf(t: Terms): Status {
    if t.trialDays > 0 then Trialing else Active
  }

  function TrialEnd(t: Terms): Option<int> {
    if t.trialDays > 0 then Some(t.now + t.trialDays * DAY) else None
  }

  function PeriodEnd(t: Terms): int {
    if t.trialDays > 0 then t.now + t.trialDays * DAY else t.monthLater
  }

  function NewRow(tenant: nat, t: Terms): Subscription {
    Subscription(tenant, t.planId, StatusOf(t), t.interval, TrialEnd(t), t.now, PeriodEnd(t), None, None, None, None,
                 t.plan.storageMb, t.plan.sendLimitDay, t.now, t.now)
  }

  function Renewed(row: Subscription, t: Terms): Subscription {
    NewRow(row.tenant, t).(createdAt := row.createdAt)
  }

  predicate Renewable(s: Status) {
    s.Cancelled? || s.Expired?
  }

  /** What a transition reads before it writes. */
  datatype Reading = Reading(status: Status, pastDueSince: Option<int>, graceEndsAt: Option<int>)

  function ReadingOf(row: Subscription): Reading {
    Reading(row.status, row.pastDueSince, row.graceEndsAt)
  }

  function Moved(row: Subscription, read: Reading, to: Status, now: int): Subscription {
    row.(status := to,
         pastDueSince := if to.PastDue? then Some(now) else read.pastDueSince,
         graceEndsAt := if to.PastDue? || to.GracePeriod? then Some(now + 7 * DAY) else read.graceEndsAt,
         suspendedAt := if to.Suspended? then Some(now) else None,
         cancelledAt := if to.Cancelled? then Some(now) else None,
         updatedAt := now)
  }

  function Replanned(row: Subscription, planId: string, plan: Plan, now: int): Subscription {
    row.(planId := planId, storageMb := plan.storageMb, sendLimitDay := plan.sendLimitDay, updatedAt := now)
  }

  // ---------------------------------------------------------------- the table

  /** The latest row of a tenant, as the ordered lookups find it. */
  function Latest(rows: seq<Subscription>, tenant: nat): Option<nat> {
    var n := |rows| - 1;
    if rows == [] then None else if rows[n].tenant == tenant then Some(n) else Latest(rows[..n], tenant)
  }

  lemma {:induction false} LatestIsARow(rows: seq<Subscription>, tenant: nat)
    ensures match Latest(rows, tenant)
            case Some(i) => i < |rows| && rows[i].tenant == tenant
            case None => forall r <- rows :: r.tenant != tenant
  {
    if rows != [] {
      var n := |rows| - 1;
      LatestIsARow(rows[..n], tenant);
      forall r | r in rows ensures r in rows[..n] || r == rows[n] {
      }
    }
  }

  function Subscribed(rows: seq<Subscription>, tenant: nat): bool {
    Latest(rows, tenant).Some?
  }

  /** The effect of an update of all rows of a tenant. */
  function MoveAll(rows: seq<Subscription>, tenant: nat, read: Reading, to: Status, now: int): (r: seq<Subscription>)
    ensures |r| == |rows|
  {
    seq(|rows|, i requires 0 <= i < |rows| => if rows[i].tenant == tenant then Moved(rows[i], read, to, now) else rows[i])
  }

  function ReplanAll(rows: seq<Subscription>, tenant: nat, planId: string, plan: Plan, now: int): (r: seq<Subscription>)
    ensures |r| == |rows|
  {
    seq(|rows|, i requires 0 <= i < |rows| => if rows[i].tenant == tenant then Replanned(rows[i], planId, plan, now) else rows[i])
  }

  function Create(rows: seq<Subscription>, tenant: nat, t: Terms): Result<seq<Subscription>, BillingError> {
    LatestIsARow(rows, tenant);
    match Latest(rows, tenant)
    case None => Ok(rows + [NewRow(tenant, t)])
    case Some(i) => if Renewable(rows[i].status) then Ok(rows[i := Renewed(rows[i], t)]) else Err(AlreadySubscribed)
  }

  function Transition(rows: seq<Subscription>, tenant: nat, to: Status, now: int): Result<seq<Subscription>,
                      BillingError> {
    LatestIsARow(rows, tenant);
    match Latest(rows, tenant)
    case None => Err(NotFound)
    case Some(i) =>
      if to in ValidTargets(rows[i].status) then Ok(MoveAll(rows, tenant, ReadingOf(rows[i]), to, now)) else Err(InvalidTransition)
  }

  // ---------------------------------------------------------------- the invariant

  /** The dates of a row fit its status. */
  predicate Consistent(r: Subscription) {
    && (r.suspendedAt.Some? <==> r.status.Suspended?)
    && (r.cancelledAt.Some? <==> r.status.Cancelled?)
    && (r.status.PastDue? || r.status.GracePeriod? ==> r.pastDueSince.Some? && r.graceEndsAt.Some?)
    && (r.status.Trialing? ==> r.trialEndsAt.Some?)
  }

  ghost predicate OneEach(rows: seq<Subscription>) {
    forall i, j :: 0 <= i < j < |rows| ==> rows[i].tenant != rows[j].tenant
  }

  ghost predicate Sound(rows: seq<Subscription>) {
    OneEach(rows) && forall r <- rows :: Consistent(r)
  }

  /** A transition writes a consistent row from any reading of a consistent one, even if the
      row has changed since it was read. */
  lemma MovedConsistent(row: Subscription, was: Subscription, to: Status, now: int)
    requires Consistent(was) && to in ValidTargets(was.status)
    ensures Consistent(Moved(row, ReadingOf(was), to, now))
  {
  }

  lemma MoveAllSound(rows: seq<Subscription>, tenant: nat, was: Subscription, to: Status, now: int)
    requires Sound(rows) && Consistent(was) && to in ValidTargets(was.status)
    ensures Sound(MoveAll(rows, tenant, ReadingOf(was), to, now))
  {
  }

  lemma MovedTenant(row: Subscription, read: Reading, to: Status, now: int)
    ensures Moved(row, read, to, now).tenant == row.tenant
  {
  }

  lemma ReplanAllSound(rows: seq<Subscription>, tenant: nat, planId: string, plan: Plan, now: int)
    requires Sound(rows)
    ensures Sound(ReplanAll(rows, tenant, planId, plan, now))
  {
    forall i | 0 <= i < |rows| ensures Consistent(ReplanAll(rows, tenant, planId, plan, now)[i]) {
      assert rows[i] in rows;
    }
  }

  lemma WrittenSound(rows: seq<Subscription>, tenant: nat, t: Terms)
    requires Sound(rows)
    ensures !Subscribed(rows, tenant) ==> Sound(rows + [NewRow(tenant, t)])
    ensures forall i :: 0 <= i < |rows| ==> Sound(rows[i := Renewed(rows[i], t)])
  {
    LatestIsARow(rows, tenant);
  }

  // ---------------------------------------------------------------- the service

  /** A tenant as the backfill sees it. */
  datatype Tenant = Tenant(id: nat, active: bool, deleted: bool, plan: Option<string>)

  function PlanFor(t: Tenant): string {
    var legacy := if t.plan.Some? then t.plan.value else "free";
    if legacy in PLAN_MAPPING then PLAN_MAPPING[legacy] else PLAN_FREE
  }

  class Service {
    var rows: seq<Subscription>
    const plans: map<string, Plan>

    constructor (plans: map<string, Plan>)
      ensures rows == [] && Sound(rows) && this.plans == plans
    {
      rows, this.plans := [], plans;
    }

    /** The newest row of the tenant. */
    method FindLatest(tenant: nat) returns (found: Option<nat>)
      ensures found == Latest(rows, tenant)
    {
      var i := |rows|;
      assert rows[..|rows|] == rows;
      while i > 0
        invariant 0 <= i <= |rows| && Latest(rows, tenant) == Latest(rows[..i], tenant)
      {
        i := i - 1;
        assert rows[..i + 1][..i] == rows[..i];
        if rows[i].tenant == tenant { return Some(i); }
      }
      found := None;
    }

    method CreateSubscription(tenant: nat, planId: string, interval: string, trialDays: int, now: int,
                              monthLater: int, healthy: bool)
      returns (failure: Option<BillingError>)
      requires Sound(rows)
      modifies this`rows
      ensures Sound(rows)
      ensures failure == if planId !in plans then Some(PlanNotFound)
                         else if !healthy then Some(Database)
                         else var r := Create(old(rows), tenant, Terms(planId, plans[planId], interval, trialDays, now, monthLater));
                              if r.Ok? then None else Some(r.error)
      ensures failure.None? ==>
                Create(old(rows), tenant, Terms(planId, plans[planId], interval, trialDays, now, monthLater)) == Ok(rows)
      ensures failure.Some? ==> rows == old(rows)
    {
      hide Sound, NewRow, Renewed;
      if planId !in plans { return Some(PlanNotFound); }
      if !healthy { return Some(Database); }
      var t := Terms(planId, plans[planId], interval, trialDays, now, monthLater);
      var existing := FindLatest(tenant);
      LatestIsARow(rows, tenant);
      WrittenSound(rows, tenant, t);
      if existing.Some? {
        var row := rows[existing.value];
        if row.status != Cancelled && row.status != Expired { return Some(AlreadySubscribed); }
        rows := rows[existing.value := Renewed(row, t)];
        return None;
      }
      rows := rows + [NewRow(tenant, t)];
      failure := None;
    }

    method ChangePlan(tenant: nat, planId: string, now: int, healthy: bool) returns (failure: Option<BillingError>)
      requires Sound(rows)
      modifies this`rows
      ensures Sound(rows)
      ensures rows == if planId in plans && healthy then ReplanAll(old(rows), tenant, planId, plans[planId], now) else old(rows)
      ensures failure == if planId !in plans then Some(PlanNotFound) else if !healthy then Some(Database)
                         else if Subscribed(old(rows), tenant) then None else Some(NotFound)
    {
      hide Sound, Replanned;
      if planId !in plans { return Some(PlanNotFound); }
      if !healthy { return Some(Database); }
      ReplanAllSound(rows, tenant, planId, plans[planId], now);
      ghost var target := ReplanAll(rows, tenant, planId, plans[planId], now);
      var before := FindLatest(tenant);
      var updated := [];
      for i := 0 to |rows|
        invariant rows == old(rows) && updated == target[..i]
      {
        updated := updated + [if rows[i].tenant == tenant then Replanned(rows[i], planId, plans[planId], now) else rows[i]];
      }
      assert target[..|rows|] == target;
      rows := updated;
      failure := if before.Some? then None else Some(NotFound);
    }

    method TransitionState(tenant: nat, to: Status, now: int, healthy: bool) returns (failure: Option<BillingError>)
      requires Sound(rows)
      modifies this`rows
      ensures Sound(rows)
      ensures healthy ==> failure == var r := Transition(old(rows), tenant, to, now); if r.Ok? then None else Some(r.error)
      ensures failure.None? ==> Transition(old(rows), tenant, to, now) == Ok(rows)
      ensures failure.Some? ==> rows == old(rows)
      ensures !healthy ==> failure == Some(Database)
    {
      hide Sound, Consistent, Moved;
      if !healthy { return Some(Database); }
      var found := FindLatest(tenant);
      LatestIsARow(rows, tenant);
      if found.None? { return Some(NotFound); }
      var current := rows[found.value];
      if to !in ValidTargets(current.status) { return Some(InvalidTransition); }
      SoundRow(rows, found.value);
      MoveAllSound(rows, tenant, current, to, now);
      ghost var target := MoveAll(rows, tenant, ReadingOf(current), to, now);
      var updated := [];
      for i := 0 to |rows|
        invariant rows == old(rows) && updated == target[..i]
      {
        assert target[..i + 1] == target[..i] + [target[i]];
        updated := updated + [if rows[i].tenant == tenant then Moved(rows[i], ReadingOf(current), to, now) else rows[i]];
      }
      assert target[..|rows|] == target;
      rows := updated;
      failure := None;
    }

    /** Creates the subscription of one candidate, if nobody has meanwhile. */
    method BackfillOne(c: Tenant, ghost before: seq<Subscription>, now: int, monthLater: int, healthy: bool)
      returns (failure: Option<BillingError>)
      requires Sound(rows) && before <= rows && !Subscribed(before, c.id)
      requires forall j :: |before| <= j < |rows| ==> rows[j].status == Active
      modifies this`rows
      ensures Sound(rows)
      ensures failure.None? ==>
                && PlanFor(c) in plans && rows == old(rows) + [BackfilledRow(c, plans[PlanFor(c)], now, monthLater)]
                && rows[|old(rows)|].tenant == c.id && rows[|old(rows)|].status == Active
      ensures failure.Some? ==> rows == old(rows)
      ensures failure.None? || failure.value == AlreadySubscribed ==> Subscribed(rows, c.id)
    {
      hide Sound, Consistent;
      LatestIsARow(before, c.id);
      LatestIsARow(rows, c.id);
      failure := CreateSubscription(c.id, PlanFor(c), INTERVAL_MONTHLY, 0, now, monthLater, healthy);
    }

    /** Gives every active tenant without a subscription one, and touches no other. */
    method BackfillSubscriptions(tenants: seq<Tenant>, now: int, monthLater: int, failing: set<nat>)
      returns (backfilled: nat, failure: Option<BillingError>)
      requires Sound(rows)
      modifies this`rows
      ensures Sound(rows) && old(rows) <= rows && backfilled == |rows| - |old(rows)|
      ensures forall i :: |old(rows)| <= i < |rows| ==> rows[i].status == Active && Eligible(tenants, rows[i].tenant)
      ensures forall i :: |old(rows)| <= i < |rows| ==> Backfilled(tenants, rows[i], plans, now, monthLater)
      ensures failure.None? ==> forall t <- tenants :: t.active && !t.deleted ==> Subscribed(rows, t.id)
    {
      hide Sound, Latest, PlanFor, BackfilledRow;
      backfilled := 0;
      var candidates := [];
      for i := 0 to |tenants|
        invariant rows == old(rows)
        invariant forall c <- candidates :: c in tenants && c.active && !c.deleted && !Subscribed(old(rows), c.id)
        invariant forall j :: 0 <= j < i && tenants[j].active && !tenants[j].deleted ==>
                    tenants[j] in candidates || Subscribed(rows, tenants[j].id)
      {
        var existing := FindLatest(tenants[i].id);
        if tenants[i].active && !tenants[i].deleted && existing.None? {
          candidates := candidates + [tenants[i]];
        }
      }
      for i := 0 to |candidates|
        invariant Sound(rows) && old(rows) <= rows && backfilled == |rows| - |old(rows)|
        invariant forall j :: |old(rows)| <= j < |rows| ==> rows[j].status == Active && Eligible(tenants, rows[j].tenant)
        invariant forall j :: |old(rows)| <= j < |rows| ==> Backfilled(tenants, rows[j], plans, now, monthLater)
        invariant forall j :: 0 <= j < i ==> Subscribed(rows, candidates[j].id)
        invariant forall t :: Subscribed(old(rows), t) ==> Subscribed(rows, t)
      {
        ghost var was := rows;
        var c := candidates[i];
        assert c in candidates;
        var failed := BackfillOne(c, old(rows), now, monthLater, c.id !in failing);
        if failed.Some? && failed.value != AlreadySubscribed { return backfilled, failed; }
        if failed.None? {
          backfilled := backfilled + 1;
          SubscribedSnoc(was, rows);
        }
      }
      failure := None;
    }
  }

  /** The row a tenant is given: on the plan that was his, by the month and without a trial. */
  function BackfilledRow(t: Tenant, plan: Plan, now: int, monthLater: int): Subscription {
    NewRow(t.id, Terms(PlanFor(t), plan, INTERVAL_MONTHLY, 0, now, monthLater))
  }

  predicate Backfilled(tenants: seq<Tenant>, row: Subscription, plans: map<string, Plan>, now: int, monthLater: int) {
    exists t <- tenants ::
      t.active && !t.deleted && PlanFor(t) in plans && row == BackfilledRow(t, plans[PlanFor(t)], now, monthLater)
  }

  predicate Eligible(tenants: seq<Tenant>, tenant: nat) {
    exists t <- tenants :: t.id == tenant && t.active && !t.deleted
  }

  lemma SubscribedSnoc(rows: seq<Subscription>, longer: seq<Subscription>)
    requires |longer| == |rows| + 1 && rows <= longer
    ensures forall t :: Subscribed(rows, t) ==> Subscribed(longer, t)
  {
    assert longer[..|rows|] == rows;
  }

  lemma SoundRow(rows: seq<Subscription>, i: nat)
    requires Sound(rows) && i < |rows|
    ensures Consistent(rows[i])
  {
  }

  // ---------------------------------------------------------------- what may change, and to what

  /** Exactly the transitions there are. */
  lemma TransitionsExactly(from: Status, to: Status)
    ensures to in ValidTargets(from) <==>
              (from, to) in {(Trialing, Active), (Trialing, PastDue), (Trialing, Cancelled), (Trialing, Expired),
                             (Active, PastDue), (Active, Cancelled), (Active, Expired),
                             (PastDue, Active), (PastDue, GracePeriod), (PastDue, Suspended), (PastDue, Cancelled),
                             (GracePeriod, Active), (GracePeriod, Suspended), (GracePeriod, Cancelled), (GracePeriod, Expired),
                             (Suspended, Active), (Suspended, Cancelled), (Suspended, Expired), (Cancelled, Expired)}
  {
  }

  datatype Change = Change(tenant: nat, to: Status, now: int)

  function Transitions(rows: seq<Subscription>, changes: seq<Change>): seq<Subscription>
    decreases |changes|
  {
    if changes == [] then rows
    else
      var r := Transition(rows, changes[0].tenant, changes[0].to, changes[0].now);
      Transitions(if r.Ok? then r.value else rows, changes[1..])
  }

  /** No number of transitions leads back into a trial, or out of the end: what is cancelled can
      only expire, and what has expired stays so. */
  lemma {:induction false} NeverBack(rows: seq<Subscription>, changes: seq<Change>, i: nat)
    requires Sound(rows) && i < |rows|
    ensures var after := Transitions(rows, changes);
            && |after| == |rows| && after[i].tenant == rows[i].tenant
            && (after[i].status == Trialing ==> rows[i].status == Trialing)
            && (rows[i].status == Cancelled ==> after[i].status in {Cancelled, Expired})
            && (rows[i].status == Expired ==> after[i].status == Expired)
    decreases |changes|
  {
    hide Sound, MoveAll, ValidTargets;
    if changes != [] {
      var c := changes[0];
      LatestIsARow(rows, c.tenant);
      var r := Transition(rows, c.tenant, c.to, c.now);
      if r.Ok? {
        var found := Latest(rows, c.tenant).value;
        SoundRow(rows, found);
        MoveAllSound(rows, c.tenant, rows[found], c.to, c.now);
        MovedRow(rows, c.tenant, found, c.to, c.now, i);
        TransitionsExactly(rows[found].status, c.to);
        NeverBack(r.value, changes[1..], i);
      } else {
        NeverBack(rows, changes[1..], i);
      }
    }
  }

  lemma MovedRow(rows: seq<Subscription>, tenant: nat, found: nat, to: Status, now: int, i: nat)
    requires Sound(rows) && found < |rows| && rows[found].tenant == tenant && i < |rows|
    ensures var after := MoveAll(rows, tenant, ReadingOf(rows[found]), to, now);
            if i == found then after[i].status == to && after[i].tenant == rows[i].tenant else after[i] == rows[i]
  {
  }

  /** Exactly what a transition does: the tenant's row gets the status, with the dates of that
      status, and nothing else changes. */
  lemma TransitionExactly(rows: seq<Subscription>, tenant: nat, to: Status, now: int)
    requires Sound(rows)
    ensures var r := Transition(rows, tenant, to, now);
            && (r == Err(NotFound) <==> forall row <- rows :: row.tenant != tenant)
            && (r.Ok? ==>
                  && |r.value| == |rows|
                  && forall i :: 0 <= i < |rows| ==>
                       var (row, after) := (rows[i], r.value[i]);
                       if row.tenant != tenant then after == row
                       else
                         && to in ValidTargets(row.status)
                         && after == row.(status := to, pastDueSince := after.pastDueSince, graceEndsAt := after.graceEndsAt,
                                          suspendedAt := after.suspendedAt, cancelledAt := after.cancelledAt, updatedAt := now)
                         && after.pastDueSince == (if to == PastDue then Some(now) else row.pastDueSince)
                         && after.graceEndsAt == (if to in {PastDue, GracePeriod} then Some(now + 7 * 86400) else row.graceEndsAt)
                         && after.suspendedAt == (if to == Suspended then Some(now) else None)
                         && after.cancelledAt == (if to == Cancelled then Some(now) else None))
            && (r.Err? && r.error != NotFound ==>
                  r.error == InvalidTransition && exists row <- rows :: row.tenant == tenant && to !in ValidTargets(row.status))
  {
    hide Consistent;
    LatestIsARow(rows, tenant);
  }

  /** Exactly what a creation does: a row for a tenant without one, the same row over again for
      one whose subscription has ended, a refusal for any other. */
  lemma CreatedExactly(rows: seq<Subscription>, tenant: nat, t: Terms)
    requires Sound(rows)
    ensures var r := Create(rows, tenant, t);
            var trial := if t.trialDays > 0 then Some(t.now + t.trialDays * 86400) else None;
            var row := Subscription(tenant, t.planId, if t.trialDays > 0 then Trialing else Active, t.interval, trial, t.now,
                                    if trial.Some? then trial.value else t.monthLater, None, None, None, None,
                                    t.plan.storageMb, t.plan.sendLimitDay, t.now, t.now);
            && ((forall row <- rows :: row.tenant != tenant) ==> r == Ok(rows + [row]))
            && forall i :: 0 <= i < |rows| && rows[i].tenant == tenant ==>
                 r == if rows[i].status in {Cancelled, Expired} then Ok(rows[i := row.(createdAt := rows[i].createdAt)])
                      else Err(AlreadySubscribed)
  {
    hide Consistent;
    LatestIsARow(rows, tenant);
  }

  /** Exactly what a change of plan does to a row. */
  lemma ReplannedExactly(rows: seq<Subscription>, tenant: nat, planId: string, plan: Plan, now: int, i: nat)
    requires i < |rows|
    ensures ReplanAll(rows, tenant, planId, plan, now)[i] ==
            if rows[i].tenant == tenant
            then rows[i].(planId := planId, storageMb := plan.storageMb, sendLimitDay := plan.sendLimitDay, updatedAt := now)
            else rows[i]
  {
  }

  /** The plan the backfill gives: the tenant's old plan by its present name, and the free one for
      an unknown name or none. */
  lemma PlanForExactly(t: Tenant)
    ensures PlanFor(t) == if t.plan.Some? && t.plan.value in {"starter", "business", "enterprise"} then t.plan.value else "free"
  {
  }
}
