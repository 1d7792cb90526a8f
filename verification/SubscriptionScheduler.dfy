/** The scheduler that moves subscriptions on as their time runs out: expired trials become
    past due, past-due ones enter their grace period, grace ends in suspension, and cancelled
    ones expire; each rule takes up to a hundred rows at a time, earliest first. */
module SubscriptionScheduler {
  import opened Collections
  import opened Outcomes
  import opened SubscriptionStatus
  import opened Subscriptions

  datatype Rule = TrialExpiry | PastDueEscalation | GraceExpiry | CancelledExpiry

  const BATCH := 100
  const RULES := [TrialExpiry, PastDueEscalation, GraceExpiry, CancelledExpiry]

  function SourceOf(rule: Rule): Status {
    match rule
    case TrialExpiry => Trialing
    case PastDueEscalation => PastDue
    case GraceExpiry => GracePeriod
    case CancelledExpiry => Cancelled
  }

  function TargetOf(rule: Rule): Status {
    match rule
    case TrialExpiry => PastDue
    case PastDueEscalation => GracePeriod
    case GraceExpiry => Suspended
    case CancelledExpiry => Expired
  }

  /** When a row falls due under a rule. */
  function Deadline(rule: Rule, r: Subscription): Option<int> {
    match rule
    case TrialExpiry => r.trialEndsAt
    case PastDueEscalation => r.graceEndsAt
    case GraceExpiry => r.graceEndsAt
    case CancelledExpiry => if r.cancelledAt.Some? then Some(r.cancelledAt.value + 30 * DAY) else None
  }

  predicate IsDue(rule: Rule, r: Subscription, now: int) {
    r.status == SourceOf(rule) && Deadline(rule, r).Some? && Deadline(rule, r).value <= now
  }

  function Due(rule: Rule, rows: seq<Subscription>, now: int): set<nat> {
    set r | r in rows && IsDue(rule, r, now) :: r.tenant
  }

  /** No due row outside the batch is due earlier than one of the batch. */
  ghost predicate EarliestFirst(rule: Rule, rows: seq<Subscription>, now: int, batch: seq<nat>) {
    forall a, b ::
      a in rows && b in rows && IsDue(rule, a, now) && IsDue(rule, b, now) && a.tenant in batch && b.tenant !in batch ==>
        Deadline(rule, a).value <= Deadline(rule, b).value
  }

  /** The answer to a rule's query. */
  ghost predicate IsBatch(rule: Rule, rows: seq<Subscription>, now: int, batch: seq<nat>) {
    && Distinct(batch) && |batch| <= BATCH && EarliestFirst(rule, rows, now, batch)
    && (forall t <- batch :: t in Due(rule, rows, now))
    && (|batch| == BATCH || forall t <- Due(rule, rows, now) :: t in batch)
  }

  ghost predicate MovedWithin(rule: Rule, before: Subscription, after: Subscription, lo: int, hi: int) {
    exists t :: lo <= t <= hi && after == Moved(before, ReadingOf(before), TargetOf(rule), t)
  }

  /** The rows of the batch are moved, except those whose transaction fails. */
  ghost predicate Progressed(rule: Rule, before: seq<Subscription>, after: seq<Subscription>, batch: seq<nat>,
                             failing: set<nat>, lo: int, hi: int) {
    && |after| == |before|
    && forall i :: 0 <= i < |before| ==>
         if before[i].tenant in batch && before[i].tenant !in failing then MovedWithin(rule, before[i], after[i], lo, hi)
         else after[i] == before[i]
  }

  /** What goes wrong while a rule runs: its query fails, transactions of single tenants fail,
      and the caller's context ends when so many rows have been read, which closes the result set. */
  datatype Trouble = Trouble(query: bool, tenants: set<nat>, ends: Option<nat>)

  /** One run of a rule between two moments: the rows read before the context ends, if it does,
      are moved. */
  ghost predicate Processed(rule: Rule, before: seq<Subscription>, after: seq<Subscription>, trouble: Trouble,
                            lo: int, hi: int) {
    exists now, batch, done ::
      && lo <= now <= hi && IsBatch(rule, before, now, batch) && done <= batch && (trouble.ends.None? ==> done == batch)
      && Progressed(rule, before, after, done, trouble.tenants, now, hi)
  }

  ghost predicate Stage(rule: Rule, before: seq<Subscription>, after: seq<Subscription>, trouble: Trouble, lo: int,
                        hi: int) {
    if trouble.query then after == before else Processed(rule, before, after, trouble, lo, hi)
  }

  /** The four rules in their order, from the first table to the last. */
  ghost predicate Round(stages: seq<seq<Subscription>>, troubles: seq<Trouble>, lo: int, hi: int) {
    && |stages| == |RULES| + 1 && |troubles| == |RULES|
    && forall k :: 0 <= k < |RULES| ==> Stage(RULES[k], stages[k], stages[k + 1], troubles[k], lo, hi)
  }

  /** Exactly what is due: a trial at its end, a past-due row and one in its grace period at the
      end of the grace, and a cancelled one after thirty days. */
  lemma DueExactly(r: Subscription, now: int)
    ensures IsDue(TrialExpiry, r, now) <==> r.status == Trialing && r.trialEndsAt.Some? && r.trialEndsAt.value <= now
    ensures IsDue(PastDueEscalation, r, now) <==> r.status == PastDue && r.graceEndsAt.Some? && r.graceEndsAt.value <= now
    ensures IsDue(GraceExpiry, r, now) <==> r.status == GracePeriod && r.graceEndsAt.Some? && r.graceEndsAt.value <= now
    ensures IsDue(CancelledExpiry, r, now) <==>
              r.status == Cancelled && r.cancelledAt.Some? && r.cancelledAt.value <= now - 30 * 86400
  {
  }

  // ---------------------------------------------------------------- the scheduler

  /** A clock that never runs backwards. */
  class Clock {
    var now: int
    var ticks: seq<nat>

    method Now() returns (t: int)
      modifies this
      ensures now == t >= old(now)
    {
      if ticks != [] {
        now, ticks := now + ticks[0], ticks[1..];
      }
      t := now;
    }
  }

  /** How many rows differ. */
  function Changed(before: seq<Subscription>, after: seq<Subscription>): nat
    requires |before| == |after|
  {
    var n := |before| - 1;
    if before == [] then 0 else Changed(before[..n], after[..n]) + if before[n] == after[n] then 0 else 1
  }

  lemma {:induction false} UnchangedIsZero(rows: seq<Subscription>)
    ensures Changed(rows, rows) == 0
  {
    if rows != [] {
      UnchangedIsZero(rows[..|rows| - 1]);
    }
  }

  lemma {:induction false} OneMoreChanged(start: seq<Subscription>, a: seq<Subscription>, b: seq<Subscription>, j: nat)
    requires |start| == |a| == |b| && j < |start| && a[j] == start[j] != b[j]
    requires forall k :: 0 <= k < |a| && k != j ==> a[k] == b[k]
    ensures Changed(start, b) == Changed(start, a) + 1
  {
    var n := |start| - 1;
    if j < n {
      OneMoreChanged(start[..n], a[..n], b[..n], j);
    } else {
      assert a[..n] == b[..n];
    }
  }

  /** How many rows the rules of a round have moved. */
  function Tally(stages: seq<seq<Subscription>>): nat
    requires forall s <- stages :: |s| == |stages[0]|
  {
    var n := |stages| - 1;
    if n <= 0 then 0 else Tally(stages[..n]) + Changed(stages[n - 1], stages[n])
  }

  class Scheduler {
    const svc: Service
    const clock: Clock
    const connections: int

    constructor (svc: Service, clock: Clock, connections: int)
      ensures this.svc == svc && this.clock == clock && this.connections == connections
    {
      this.svc, this.clock, this.connections := svc, clock, connections;
    }

    /** The pool has no connection beside the one that an open result set holds; a limit of
        zero or less is no limit. */
    predicate Single() {
      connections == 1
    }

    /** The earliest due row whose tenant is not yet in the batch. */
    method Earliest(rule: Rule, now: int, batch: seq<nat>) returns (best: Option<nat>)
      ensures best.None? ==> forall r <- svc.rows :: IsDue(rule, r, now) ==> r.tenant in batch
      ensures best.Some? ==>
                && best.value < |svc.rows| && IsDue(rule, svc.rows[best.value], now) && svc.rows[best.value].tenant !in batch
                && forall r <- svc.rows :: IsDue(rule, r, now) && r.tenant !in batch ==>
                     Deadline(rule, svc.rows[best.value]).value <= Deadline(rule, r).value
    {
      hide SourceOf, Deadline;
      best := None;
      for i := 0 to |svc.rows|
        invariant best.None? ==> forall r <- svc.rows[..i] :: IsDue(rule, r, now) ==> r.tenant in batch
        invariant best.Some? ==>
                    && best.value < i && IsDue(rule, svc.rows[best.value], now) && svc.rows[best.value].tenant !in batch
                    && forall r <- svc.rows[..i] :: IsDue(rule, r, now) && r.tenant !in batch ==>
                         Deadline(rule, svc.rows[best.value]).value <= Deadline(rule, r).value
      {
        assert svc.rows[..i + 1] == svc.rows[..i] + [svc.rows[i]];
        var r := svc.rows[i];
        if IsDue(rule, r, now) && r.tenant !in batch {
          if best.None? || Deadline(rule, r).value < Deadline(rule, svc.rows[best.value]).value {
            best := Some(i);
          }
        }
      }
      assert svc.rows[..|svc.rows|] == svc.rows;
    }

    /** SELECT ... ORDER BY deadline LIMIT 100. */
    method SelectDue(rule: Rule, now: int) returns (batch: seq<nat>)
      requires Sound(svc.rows)
      ensures IsBatch(rule, svc.rows, now, batch)
      ensures forall a <- svc.rows, b <- svc.rows ::
                IsDue(rule, a, now) && IsDue(rule, b, now) && a.tenant in batch && b.tenant !in batch ==>
                  Deadline(rule, a).value <= Deadline(rule, b).value
      ensures |batch| <= 100 && (|batch| == 100 || forall r <- svc.rows :: IsDue(rule, r, now) ==> r.tenant in batch)
    {
      hide IsDue, Deadline, Consistent;
      batch := [];
      while |batch| < BATCH
        invariant |batch| <= BATCH && Distinct(batch) && EarliestFirst(rule, svc.rows, now, batch)
        invariant forall t <- batch :: t in Due(rule, svc.rows, now)
        decreases BATCH - |batch|
      {
        var next := Earliest(rule, now, batch);
        if next.None? { return; }
        BatchGrows(rule, svc.rows, now, batch, next.value);
        batch := batch + [svc.rows[next.value].tenant];
      }
    }

    /** How many rows of the batch are moved: over a single connection the first transition waits
        until the context has ended and the result set is closed. */
    function Reach(batch: seq<nat>, ends: Option<nat>): (n: nat)
      ensures n <= |batch|
    {
      var n := if ends.Some? && ends.value < |batch| then ends.value else |batch|;
      if Single() && n > 1 then 1 else n
    }

    /** The result set stays open while the rows are moved, so that over a single connection the
        first transition waits for the context to end, and for ever if it does not. */
    method TransitionRows(rule: Rule, batch: seq<nat>, failing: set<nat>, ends: Option<nat>)
      returns (count: nat, failed: bool, stuck: bool)
      requires Sound(svc.rows) && Distinct(batch)
      requires forall r <- svc.rows :: r.tenant in batch ==> r.status == SourceOf(rule)
      requires forall t <- batch :: Subscribed(svc.rows, t)
      modifies svc`rows, clock
      ensures Sound(svc.rows) && clock.now >= old(clock.now)
      ensures stuck <==> Single() && ends.None? && batch != []
      ensures stuck ==> svc.rows == old(svc.rows)
      ensures !stuck ==>
                Progressed(rule, old(svc.rows), svc.rows, batch[..Reach(batch, ends)], failing, old(clock.now), clock.now)
      ensures failed <==> ends.Some? && if Single() then batch != [] else ends.value < |batch|
      ensures |svc.rows| == |old(svc.rows)| && count == Changed(old(svc.rows), svc.rows) <= Reach(batch, ends)
    {
      hide Sound, Moved, MovedWithin, Changed;
      count, stuck := 0, Single() && ends.None? && batch != [];
      failed := ends.Some? && if Single() then batch != [] else ends.value < |batch|;
      UnchangedIsZero(svc.rows);
      if stuck { return; }
      for i := 0 to Reach(batch, ends)
        invariant Sound(svc.rows) && clock.now >= old(clock.now)
        invariant Progressed(rule, old(svc.rows), svc.rows, batch[..i], failing, old(clock.now), clock.now)
        invariant count == Changed(old(svc.rows), svc.rows) <= i
      {
        ghost var before, was := svc.rows, clock.now;
        var now := clock.Now();
        var failure := svc.TransitionState(batch[i], TargetOf(rule), now, batch[i] !in failing);
        assert batch[..i + 1] == batch[..i] + [batch[i]];
        OneMoreMoved(rule, old(svc.rows), before, batch, i, failing, old(clock.now), was, now);
        if failure.None? {
          count := count + 1;
        }
      }
    }

    /** One rule: its due rows are selected and moved. */
    method Process(rule: Rule, trouble: Trouble) returns (count: nat, failed: bool, stuck: bool)
      requires Sound(svc.rows)
      modifies svc`rows, clock
      ensures Sound(svc.rows) && clock.now >= old(clock.now)
      ensures !stuck ==> Stage(rule, old(svc.rows), svc.rows, trouble, old(clock.now), clock.now)
      ensures trouble.query ==> failed
      ensures failed && !trouble.query ==> trouble.ends.Some? && Due(rule, old(svc.rows), clock.now) != {}
      ensures |svc.rows| == |old(svc.rows)| && count == Changed(old(svc.rows), svc.rows)
      ensures Single() ==> count <= Endings([trouble])
      ensures stuck ==>
                && Single() && !trouble.query && trouble.ends.None? && svc.rows == old(svc.rows)
                && Due(rule, svc.rows, clock.now) != {}
      ensures Single() && !stuck ==> trouble.query || trouble.ends.Some? || Due(rule, old(svc.rows), old(clock.now)) == {}
    {
      hide Sound, Progressed, Changed, EarliestFirst, Distinct;
      UnchangedIsZero(svc.rows);
      var now := clock.Now();
      if trouble.query { return 0, true, false; }
      var batch := SelectDue(rule, now);
      BatchMovable(rule, svc.rows, now, batch);
      count, failed, stuck := TransitionRows(rule, batch, trouble.tenants, trouble.ends);
      DueRemains(rule, old(svc.rows), old(clock.now), now);
      DueRemains(rule, old(svc.rows), now, clock.now);
      if batch != [] {
        assert batch[0] in Due(rule, old(svc.rows), now);
      } else {
        assert Due(rule, old(svc.rows), now) == {};
      }
    }

    /** All four rules, one after the other; a failing one does not stop the others. Over a
        single connection the first due row stops the round until the context ends, and then no
        more rows than the one that waits are moved. */
    method RunAll(troubles: seq<Trouble>)
      returns (total: nat, failed: set<Rule>, stuck: bool, ghost stages: seq<seq<Subscription>>)
      requires Sound(svc.rows) && |troubles| == |RULES|
      modifies svc`rows, clock
      ensures Sound(svc.rows) && clock.now >= old(clock.now)
      ensures stages != [] && stages[0] == old(svc.rows) && stages[|stages| - 1] == svc.rows
      ensures (forall s <- stages :: |s| == |stages[0]|) && total == Tally(stages)
      ensures !stuck ==> Round(stages, troubles, old(clock.now), clock.now)
      ensures !stuck ==>
                && |stages| == 5
                && Stage(TrialExpiry, stages[0], stages[1], troubles[0], old(clock.now), clock.now)
                && Stage(PastDueEscalation, stages[1], stages[2], troubles[1], old(clock.now), clock.now)
                && Stage(GraceExpiry, stages[2], stages[3], troubles[2], old(clock.now), clock.now)
                && Stage(CancelledExpiry, stages[3], stages[4], troubles[3], old(clock.now), clock.now)
      ensures !stuck ==> forall k :: 0 <= k < |RULES| ==>
                && (troubles[k].query ==> RULES[k] in failed)
                && (RULES[k] in failed ==> troubles[k].query || troubles[k].ends.Some?)
      ensures Single() ==> total <= Endings(troubles)
      ensures stuck ==>
                && Single()
                && exists k :: 0 <= k < |RULES| && !troubles[k].query && troubles[k].ends.None?
                               && Due(RULES[k], svc.rows, clock.now) != {}
      ensures Single() && !stuck ==> forall k :: 0 <= k < |RULES| ==>
                troubles[k].query || troubles[k].ends.Some? || Due(RULES[k], stages[k], old(clock.now)) == {}
    {
      hide Sound, Stage, Changed, Due, Ran, Reported, Tally;
      total, failed, stuck, stages := 0, {}, false, [svc.rows];
      NothingRan(svc.rows, troubles, clock.now);
      for k := 0 to |RULES|
        invariant !stuck && Sound(svc.rows) && clock.now >= old(clock.now)
        invariant Ran(stages, troubles, k, old(clock.now), clock.now) && |stages| == k + 1
        invariant stages[0] == old(svc.rows) && stages[k] == svc.rows && |svc.rows| == |stages[0]|
        invariant (forall s <- stages :: |s| == |stages[0]|) && total == Tally(stages)
        invariant Reported(failed, troubles, k)
        invariant Single() ==> total <= Endings(troubles[..k])
        invariant Single() ==> forall j :: 0 <= j < k ==>
                    troubles[j].query || troubles[j].ends.Some? || Due(RULES[j], stages[j], old(clock.now)) == {}
      {
        ghost var before := clock.now;
        var count, broken, waits := Process(RULES[k], troubles[k]);
        if waits {
          stuck := true;
          EndingsGrow(troubles, k);
          return;
        }
        DueRemains(RULES[k], stages[k], old(clock.now), before);
        OneMoreRan(stages, troubles, svc.rows, k, old(clock.now), before, clock.now);
        OneMoreReported(failed, troubles, k, broken);
        EndingsAdd(troubles, k);
        stages := stages + [svc.rows];
        total := total + count;
        if broken {
          failed := failed + {RULES[k]};
        }
      }
      RanAll(stages, troubles, failed, old(clock.now), clock.now);
    }
  }

  /** The first so many rules have run. */
  ghost predicate Ran(stages: seq<seq<Subscription>>, troubles: seq<Trouble>, k: nat, lo: int, hi: int)
    requires k <= |troubles| == |RULES|
  {
    |stages| == k + 1 && forall j :: 0 <= j < k ==> Stage(RULES[j], stages[j], stages[j + 1], troubles[j], lo, hi)
  }

  /** And the failures among them are known. */
  ghost predicate Reported(failed: set<Rule>, troubles: seq<Trouble>, k: nat)
    requires k <= |troubles| == |RULES|
  {
    && (forall r <- failed :: r in RULES[..k])
    && forall j :: 0 <= j < k ==>
         && (troubles[j].query ==> RULES[j] in failed)
         && (RULES[j] in failed ==> troubles[j].query || troubles[j].ends.Some?)
  }

  lemma NothingRan(rows: seq<Subscription>, troubles: seq<Trouble>, lo: int)
    requires |troubles| == |RULES|
    ensures Ran([rows], troubles, 0, lo, lo) && Reported({}, troubles, 0) && Tally([rows]) == 0
  {
  }

  lemma OneMoreRan(stages: seq<seq<Subscription>>, troubles: seq<Trouble>, next: seq<Subscription>, k: nat, lo: int,
                   was: int, now: int)
    requires k < |troubles| == |RULES| && Ran(stages, troubles, k, lo, was) && lo <= was <= now
    requires Stage(RULES[k], stages[k], next, troubles[k], was, now)
    requires (forall s <- stages :: |s| == |stages[0]|) && |next| == |stages[0]|
    ensures Ran(stages + [next], troubles, k + 1, lo, now)
    ensures Tally(stages + [next]) == Tally(stages) + Changed(stages[k], next)
  {
    hide Stage, Changed;
    var more := stages + [next];
    assert more[..k + 1] == stages;
    forall j | 0 <= j <= k ensures Stage(RULES[j], more[j], more[j + 1], troubles[j], lo, now) {
      if j < k {
        assert Stage(RULES[j], stages[j], stages[j + 1], troubles[j], lo, was);
        StageWidens(RULES[j], stages[j], stages[j + 1], troubles[j], lo, was, lo, now);
      } else {
        StageWidens(RULES[k], stages[k], next, troubles[k], was, now, lo, now);
      }
    }
  }

  lemma OneMoreReported(failed: set<Rule>, troubles: seq<Trouble>, k: nat, broken: bool)
    requires k < |troubles| == |RULES| && Reported(failed, troubles, k)
    requires (troubles[k].query ==> broken) && (broken ==> troubles[k].query || troubles[k].ends.Some?)
    ensures Reported(if broken then failed + {RULES[k]} else failed, troubles, k + 1)
  {
    assert RULES[..k + 1] == RULES[..k] + [RULES[k]];
  }

  lemma RanAll(stages: seq<seq<Subscription>>, troubles: seq<Trouble>, failed: set<Rule>, lo: int, hi: int)
    requires |troubles| == |RULES| && Ran(stages, troubles, |RULES|, lo, hi) && Reported(failed, troubles, |RULES|)
    ensures Round(stages, troubles, lo, hi) && troubles[..|RULES|] == troubles
    ensures forall k :: 0 <= k < |RULES| ==>
              && (troubles[k].query ==> RULES[k] in failed)
              && (RULES[k] in failed ==> troubles[k].query || troubles[k].ends.Some?)
  {
    hide Stage;
  }

  /** During how many rules the context ends. */
  function Endings(troubles: seq<Trouble>): nat {
    var n := |troubles| - 1;
    if troubles == [] then 0 else Endings(troubles[..n]) + if !troubles[n].query && troubles[n].ends.Some? then 1 else 0
  }

  lemma EndingsAdd(troubles: seq<Trouble>, k: nat)
    requires k < |troubles|
    ensures Endings(troubles[..k + 1]) == Endings(troubles[..k]) + Endings([troubles[k]])
  {
    assert troubles[..k + 1][..k] == troubles[..k];
  }

  lemma {:induction false} EndingsGrow(troubles: seq<Trouble>, k: nat)
    requires k <= |troubles|
    ensures Endings(troubles[..k]) <= Endings(troubles)
  {
    if k < |troubles| {
      EndingsGrow(troubles[..|troubles| - 1], k);
      assert troubles[..|troubles| - 1][..k] == troubles[..k];
    } else {
      assert troubles[..k] == troubles;
    }
  }

  /** What is due stays due. */
  lemma DueRemains(rule: Rule, rows: seq<Subscription>, now: int, later: int)
    requires now <= later
    ensures Due(rule, rows, now) <= Due(rule, rows, later)
  {
  }

  lemma BatchGrows(rule: Rule, rows: seq<Subscription>, now: int, batch: seq<nat>, next: nat)
    requires Sound(rows) && Distinct(batch) && EarliestFirst(rule, rows, now, batch)
    requires forall t <- batch :: t in Due(rule, rows, now)
    requires next < |rows| && IsDue(rule, rows[next], now) && rows[next].tenant !in batch
    requires forall r <- rows :: IsDue(rule, r, now) && r.tenant !in batch ==>
               Deadline(rule, rows[next]).value <= Deadline(rule, r).value
    ensures var more := batch + [rows[next].tenant];
            Distinct(more) && EarliestFirst(rule, rows, now, more) && forall t <- more :: t in Due(rule, rows, now)
  {
  }

  lemma BatchMovable(rule: Rule, rows: seq<Subscription>, now: int, batch: seq<nat>)
    requires Sound(rows) && IsBatch(rule, rows, now, batch)
    ensures Distinct(batch) && (forall t <- batch :: Subscribed(rows, t))
    ensures forall r <- rows :: r.tenant in batch ==> r.status == SourceOf(rule)
  {
    forall t | t in batch ensures Subscribed(rows, t) {
      LatestIsARow(rows, t);
    }
  }

  lemma Widens(rule: Rule, before: Subscription, after: Subscription, lo: int, hi: int, to: int)
    requires MovedWithin(rule, before, after, lo, hi) && hi <= to
    ensures MovedWithin(rule, before, after, lo, to)
  {
  }

  lemma MovedNow(rule: Rule, r: Subscription, lo: int, now: int)
    requires lo <= now && r.status == SourceOf(rule)
    ensures var moved := Moved(r, ReadingOf(r), TargetOf(rule), now);
            moved != r && MovedWithin(rule, r, moved, lo, now) && TargetOf(rule) in ValidTargets(r.status)
  {
  }

  /** The next tenant of the batch is found as it was, so its transition is valid. */
  lemma OneMoreMoved(rule: Rule, start: seq<Subscription>, before: seq<Subscription>, batch: seq<nat>, i: nat,
                     failing: set<nat>, lo: int, was: int, now: int)
    requires Sound(start) && Sound(before) && Distinct(batch) && i < |batch| && lo <= was <= now
    requires forall r <- start :: r.tenant in batch ==> r.status == SourceOf(rule)
    requires Subscribed(start, batch[i])
    requires Progressed(rule, start, before, batch[..i], failing, lo, was)
    ensures var r := Transition(before, batch[i], TargetOf(rule), now);
            && r.Ok? && |r.value| == |start| && Changed(start, r.value) == Changed(start, before) + 1
            && Progressed(rule, start, if batch[i] in failing then before else r.value, batch[..i + 1], failing, lo, now)
  {
    hide Consistent, Moved, MovedWithin, Changed;
    var t := batch[i];
    LatestIsARow(start, t);
    LatestIsARow(before, t);
    var j := Latest(start, t).value;
    SameTenants(rule, start, before, batch[..i], failing, lo, was);
    assert before[j] == start[j] && start[j] in start && before[j] in before;
    assert Latest(before, t) == Some(j);
    var moved := MoveAll(before, t, ReadingOf(before[j]), TargetOf(rule), now);
    MovedNow(rule, start[j], lo, now);
    OneMoreChanged(start, before, moved, j);
    assert batch[..i + 1] == batch[..i] + [t];
    forall k | 0 <= k < |start| && MovedWithin(rule, start[k], before[k], lo, was)
      ensures MovedWithin(rule, start[k], before[k], lo, now)
    {
      Widens(rule, start[k], before[k], lo, was, now);
    }
  }

  lemma SameTenants(rule: Rule, before: seq<Subscription>, after: seq<Subscription>, batch: seq<nat>,
                    failing: set<nat>, lo: int, hi: int)
    requires Progressed(rule, before, after, batch, failing, lo, hi)
    ensures forall i :: 0 <= i < |before| ==> after[i].tenant == before[i].tenant
  {
  }

  // ---------------------------------------------------------------- one move per round

  /** What a rule does to a row it moves: the row was due, and its next deadline is a week off. */
  lemma MoveNeedsDeadline(rule: Rule, before: seq<Subscription>, after: seq<Subscription>, trouble: Trouble, lo: int,
                          hi: int, i: nat)
    requires Stage(rule, before, after, trouble, lo, hi) && Sound(before) && i < |before|
    ensures |after| == |before|
    ensures after[i] != before[i] ==>
              && IsDue(rule, before[i], hi) && Deadline(rule, before[i]).Some?
              && exists t :: lo <= t <= hi && Deadline(rule, before[i]).value <= t
                             && after[i] == Moved(before[i], ReadingOf(before[i]), TargetOf(rule), t)
  {
    hide EarliestFirst;
    if !trouble.query {
      var now, batch: seq<nat>, done: seq<nat> :|
        lo <= now <= hi && IsBatch(rule, before, now, batch) && done <= batch
        && Progressed(rule, before, after, done, trouble.tenants, now, hi);
      if before[i].tenant in done {
        assert before[i].tenant in batch;
      }
    }
  }

  /** Whatever a rule moves was due, and goes one step on: from a trial to past due, from past
      due into the grace period, from there to suspension, and from cancelled to expired. */
  lemma MovedOneStep(rule: Rule, before: seq<Subscription>, after: seq<Subscription>, trouble: Trouble, lo: int, hi: int,
                     i: nat)
    requires Stage(rule, before, after, trouble, lo, hi) && Sound(before) && i < |before|
    ensures |after| == |before|
    ensures after[i] != before[i] ==>
              && (before[i].status, after[i].status) ==
                 (match rule case TrialExpiry => (Trialing, PastDue) case PastDueEscalation => (PastDue, GracePeriod)
                             case GraceExpiry => (GracePeriod, Suspended) case CancelledExpiry => (Cancelled, Expired))
              && (after[i].status == Expired ==> before[i].cancelledAt.Some? && before[i].cancelledAt.value + 30 * 86400 <= hi)
              && (after[i].status in {GracePeriod, Suspended} ==> before[i].graceEndsAt.Some? && before[i].graceEndsAt.value <= hi)
              && (after[i].status == PastDue ==> before[i].trialEndsAt.Some? && before[i].trialEndsAt.value <= hi)
  {
    hide Stage, Sound;
    MoveNeedsDeadline(rule, before, after, trouble, lo, hi, i);
    DueExactly(before[i], hi);
  }

  lemma MovedNotDue(rule: Rule, other: Rule, row: Subscription, t: int, hi: int)
    requires hi < t + 7 * DAY
    ensures !IsDue(other, Moved(row, ReadingOf(row), TargetOf(rule), t), hi)
  {
  }

  lemma StageSound(rule: Rule, before: seq<Subscription>, after: seq<Subscription>, trouble: Trouble, lo: int, hi: int)
    requires Stage(rule, before, after, trouble, lo, hi) && Sound(before)
    ensures Sound(after) && |after| == |before| && forall i :: 0 <= i < |before| ==> after[i].tenant == before[i].tenant
  {
    hide Consistent, Moved, IsDue, Deadline;
    forall i | 0 <= i < |before| ensures |after| == |before| && after[i].tenant == before[i].tenant && Consistent(after[i]) {
      MoveNeedsDeadline(rule, before, after, trouble, lo, hi, i);
      SoundRow(before, i);
      if after[i] != before[i] {
        var t :| lo <= t <= hi && after[i] == Moved(before[i], ReadingOf(before[i]), TargetOf(rule), t);
        DueValid(rule, before[i], hi);
        MovedConsistent(before[i], before[i], TargetOf(rule), t);
        MovedTenant(before[i], ReadingOf(before[i]), TargetOf(rule), t);
      }
    }
    if |before| == 0 && !trouble.query {
      var now, batch: seq<nat>, done: seq<nat> :|
        lo <= now <= hi && IsBatch(rule, before, now, batch) && done <= batch
        && Progressed(rule, before, after, done, trouble.tenants, now, hi);
    }
  }

  lemma DueValid(rule: Rule, r: Subscription, now: int)
    requires IsDue(rule, r, now)
    ensures TargetOf(rule) in ValidTargets(r.status)
  {
  }

  /** A row that a rule has moved is left alone by every later rule of the round. */
  lemma {:induction false} MovedRestsUntil(stages: seq<seq<Subscription>>, troubles: seq<Trouble>, lo: int, hi: int, i: nat,
                                           j: nat, k: nat)
    requires Round(stages, troubles, lo, hi) && hi < lo + 7 * DAY && Sound(stages[0])
    requires j < k <= |RULES| && (forall m :: 0 <= m <= k ==> Sound(stages[m]) && |stages[m]| == |stages[0]|) && i < |stages[0]|
    requires stages[j + 1][i] != stages[j][i]
    ensures stages[k][i] == stages[j + 1][i]
    decreases k
  {
    hide Sound, Moved, IsDue, Stage, Deadline;
    assert Stage(RULES[j], stages[j], stages[j + 1], troubles[j], lo, hi);
    MoveNeedsDeadline(RULES[j], stages[j], stages[j + 1], troubles[j], lo, hi, i);
    var t :| lo <= t <= hi && stages[j + 1][i] == Moved(stages[j][i], ReadingOf(stages[j][i]), TargetOf(RULES[j]), t);
    if k > j + 1 {
      MovedRestsUntil(stages, troubles, lo, hi, i, j, k - 1);
      assert Stage(RULES[k - 1], stages[k - 1], stages[k - 1 + 1], troubles[k - 1], lo, hi);
      MoveNeedsDeadline(RULES[k - 1], stages[k - 1], stages[k], troubles[k - 1], lo, hi, i);
      MovedNotDue(RULES[j], RULES[k - 1], stages[j][i], t, hi);
    }
  }

  lemma {:induction false} RoundSound(stages: seq<seq<Subscription>>, troubles: seq<Trouble>, lo: int, hi: int, k: nat)
    requires Round(stages, troubles, lo, hi) && Sound(stages[0]) && k <= |RULES|
    ensures forall m :: 0 <= m <= k ==> Sound(stages[m]) && |stages[m]| == |stages[0]|
  {
    hide Sound, Stage;
    if k > 0 {
      RoundSound(stages, troubles, lo, hi, k - 1);
      assert Stage(RULES[k - 1], stages[k - 1], stages[k - 1 + 1], troubles[k - 1], lo, hi);
      StageSound(RULES[k - 1], stages[k - 1], stages[k], troubles[k - 1], lo, hi);
    }
  }

  /** A round that takes less than seven days moves no subscription twice. */
  lemma MovedOncePerRound(stages: seq<seq<Subscription>>, troubles: seq<Trouble>, lo: int, hi: int, i: nat, j: nat, k: nat)
    requires Round(stages, troubles, lo, hi) && hi < lo + 7 * DAY && Sound(stages[0])
    requires j < k < |RULES| && i < |stages[0]|
    ensures forall m :: 0 <= m <= |RULES| ==> |stages[m]| == |stages[0]|
    ensures stages[j + 1][i] == stages[j][i] || stages[k + 1][i] == stages[k][i]
  {
    hide Sound, Stage, Moved;
    RoundSound(stages, troubles, lo, hi, |RULES|);
    if stages[j + 1][i] != stages[j][i] {
      MovedRestsUntil(stages, troubles, lo, hi, i, j, k);
      MovedRestsUntil(stages, troubles, lo, hi, i, j, k + 1);
    }
  }

  lemma StageWidens(rule: Rule, before: seq<Subscription>, after: seq<Subscription>, trouble: Trouble, lo: int,
                    hi: int, from: int, to: int)
    requires Stage(rule, before, after, trouble, lo, hi) && from <= lo && hi <= to
    ensures Stage(rule, before, after, trouble, from, to)
  {
    hide IsBatch;
    if !trouble.query {
      var now, batch: seq<nat>, done: seq<nat> :|
        lo <= now <= hi && IsBatch(rule, before, now, batch) && done <= batch && (trouble.ends.None? ==> done == batch)
        && Progressed(rule, before, after, done, trouble.tenants, now, hi);
      assert Progressed(rule, before, after, done, trouble.tenants, now, to);
    }
  }

  // ---------------------------------------------------------------- a rank that only rises

  function Rank(s: Status): nat {
    match s
    case Trialing => 0
    case PastDue => 1
    case GracePeriod => 2
    case Suspended => 3
    case Active => 4
    case Cancelled => 5
    case Expired => 6
  }

  /** A rule leaves a row as it is or raises its rank. */
  lemma RankRises(rule: Rule, before: seq<Subscription>, after: seq<Subscription>, trouble: Trouble, lo: int, hi: int,
                  i: nat)
    requires Stage(rule, before, after, trouble, lo, hi) && Sound(before) && i < |before|
    ensures |after| == |before| && (after[i] == before[i] || Rank(after[i].status) > Rank(before[i].status))
  {
    hide Stage, Sound;
    MoveNeedsDeadline(rule, before, after, trouble, lo, hi, i);
  }

  // ---------------------------------------------------------------- trials

  datatype Firing = Firing(rule: Rule, trouble: Trouble, lo: int, hi: int)

  /** Any rules, fired one after the other. */
  ghost predicate Chain(states: seq<seq<Subscription>>, firings: seq<Firing>) {
    && |states| == |firings| + 1
    && forall k :: 0 <= k < |firings| ==>
         Stage(firings[k].rule, states[k], states[k + 1], firings[k].trouble, firings[k].lo, firings[k].hi)
  }

  /** Where a trial that ends at `end` can be. */
  predicate OnTrialPath(r: Subscription, end: int) {
    || (r.status.Trialing? && r.trialEndsAt == Some(end))
    || (r.status.PastDue? && r.graceEndsAt.Some? && r.graceEndsAt.value >= end + 7 * DAY)
    || (r.status.GracePeriod? && r.graceEndsAt.Some? && r.graceEndsAt.value >= end + 14 * DAY)
    || (r.status.Suspended? && r.suspendedAt.Some? && r.suspendedAt.value >= end + 14 * DAY)
  }

  lemma TrialStep(rule: Rule, r: Subscription, end: int, t: int, hi: int)
    requires OnTrialPath(r, end) && IsDue(rule, r, hi) && Deadline(rule, r).value <= t
    ensures OnTrialPath(Moved(r, ReadingOf(r), TargetOf(rule), t), end)
  {
  }

  lemma {:induction false} TrialPath(states: seq<seq<Subscription>>, firings: seq<Firing>, i: nat, end: int)
    requires Chain(states, firings) && Sound(states[0]) && i < |states[0]| && OnTrialPath(states[0][i], end)
    ensures forall s <- states :: |s| == |states[0]| && Sound(s) && OnTrialPath(s[i], end)
    decreases |firings|
  {
    hide Sound, Stage, OnTrialPath, Moved, IsDue, Deadline;
    if firings == [] {
      assert states == [states[0]];
    } else {
      var f := firings[0];
      assert Stage(f.rule, states[0], states[0 + 1], f.trouble, f.lo, f.hi);
      StageSound(f.rule, states[0], states[1], f.trouble, f.lo, f.hi);
      MoveNeedsDeadline(f.rule, states[0], states[1], f.trouble, f.lo, f.hi, i);
      if states[1][i] != states[0][i] {
        var t :| f.lo <= t <= f.hi && Deadline(f.rule, states[0][i]).value <= t
                 && states[1][i] == Moved(states[0][i], ReadingOf(states[0][i]), TargetOf(f.rule), t);
        TrialStep(f.rule, states[0][i], end, t, f.hi);
      }
      forall k | 0 <= k < |firings[1..]|
        ensures Stage(firings[1..][k].rule, states[1..][k], states[1..][k + 1], firings[1..][k].trouble,
                      firings[1..][k].lo, firings[1..][k].hi)
      {
        var g := firings[k + 1];
        assert Stage(g.rule, states[k + 1], states[k + 1 + 1], g.trouble, g.lo, g.hi);
      }
      TrialPath(states[1..], firings[1..], i, end);
      assert states == [states[0]] + states[1..];
    }
  }

  /** However often and whenever the scheduler runs, a trial is not suspended before fourteen
      days after its end. */
  lemma TrialSuspendedLate(states: seq<seq<Subscription>>, firings: seq<Firing>, i: nat, end: int, k: nat)
    requires Chain(states, firings) && Sound(states[0]) && i < |states[0]| && k < |states|
    requires states[0][i].status.Trialing? && states[0][i].trialEndsAt == Some(end)
    ensures |states[k]| == |states[0]|
    ensures states[k][i].status.Suspended? ==> states[k][i].suspendedAt.Some? && states[k][i].suspendedAt.value >= end + 14 * DAY
  {
    hide Chain, Sound;
    TrialPath(states, firings, i, end);
    assert states[k] in states;
  }

  // ---------------------------------------------------------------- nothing stays due

  const UNTROUBLED := Trouble(false, {}, None)
  const CALM := [UNTROUBLED, UNTROUBLED, UNTROUBLED, UNTROUBLED]

  lemma DueTenants(rule: Rule, rows: seq<Subscription>, now: int)
    ensures |Due(rule, rows, now)| <= |rows|
  {
    hide IsDue;
    if rows != [] {
      var n := |rows| - 1;
      DueTenants(rule, rows[..n], now);
      forall r | r in rows ensures r in rows[..n] || r == rows[n] {
      }
      SubsetSmaller(Due(rule, rows, now), Due(rule, rows[..n], now) + {rows[n].tenant});
    }
  }

  /** At a frozen time a rule that runs undisturbed makes no row due. */
  lemma NoneBecomesDue(rule: Rule, other: Rule, before: seq<Subscription>, after: seq<Subscription>, now: int)
    requires Stage(rule, before, after, UNTROUBLED, now, now) && Sound(before)
    ensures Due(other, after, now) <= Due(other, before, now)
  {
  }

  lemma BatchLeaves(rule: Rule, before: seq<Subscription>, after: seq<Subscription>, batch: seq<nat>, now: int)
    requires Progressed(rule, before, after, batch, {}, now, now)
    ensures forall t <- batch :: t !in Due(rule, after, now)
  {
  }

  /** And it takes a full batch, or all there is, out of what is due under it. */
  lemma OwnDueShrinks(rule: Rule, before: seq<Subscription>, after: seq<Subscription>, now: int)
    requires Stage(rule, before, after, UNTROUBLED, now, now) && Sound(before)
    ensures |Due(rule, after, now)| + BATCH <= |Due(rule, before, now)| || Due(rule, after, now) == {}
  {
    hide Sound, Due, Progressed, EarliestFirst, Distinct;
    var at, batch: seq<nat>, done: seq<nat> :|
      now <= at <= now && IsBatch(rule, before, at, batch) && done == batch
      && Progressed(rule, before, after, done, {}, at, now);
    NoneBecomesDue(rule, rule, before, after, now);
    SetOfSize(batch);
    BatchLeaves(rule, before, after, batch, now);
    var due, left, taken := Due(rule, before, now), Due(rule, after, now), SetOf(batch);
    assert taken <= due && left <= due - taken;
    SubsetSmaller(left, due - taken);
    assert |due - taken| == |due| - |taken|;
  }

  /** What a round leaves due. */
  lemma RoundShrinks(stages: seq<seq<Subscription>>, now: int, rule: Rule)
    requires Round(stages, CALM, now, now) && Sound(stages[0])
    ensures Sound(stages[|RULES|]) && |stages[|RULES|]| == |stages[0]|
    ensures |Due(rule, stages[|RULES|], now)| + BATCH <= |Due(rule, stages[0], now)| || Due(rule, stages[|RULES|], now) == {}
  {
    hide Sound, Stage, Due;
    RoundSound(stages, CALM, now, now, |RULES|);
    for k := 0 to |RULES|
      invariant Due(rule, stages[k], now) <= Due(rule, stages[0], now)
      invariant rule in RULES[..k] ==>
                  |Due(rule, stages[k], now)| + BATCH <= |Due(rule, stages[0], now)| || Due(rule, stages[k], now) == {}
    {
      assert Stage(RULES[k], stages[k], stages[k + 1], UNTROUBLED, now, now);
      NoneBecomesDue(RULES[k], rule, stages[k], stages[k + 1], now);
      SubsetSmaller(Due(rule, stages[k], now), Due(rule, stages[0], now));
      SubsetSmaller(Due(rule, stages[k + 1], now), Due(rule, stages[k], now));
      if RULES[k] == rule {
        OwnDueShrinks(rule, stages[k], stages[k + 1], now);
      }
      assert RULES[..k + 1] == RULES[..k] + [RULES[k]];
    }
    EveryRule(rule);
  }

  lemma EveryRule(rule: Rule)
    ensures rule in RULES[..|RULES|]
  {
    assert rule == RULES[0] || rule == RULES[1] || rule == RULES[2] || rule == RULES[3];
  }

  /** Rounds at a frozen time, each starting where the last one ended. */
  ghost predicate FrozenRounds(rounds: seq<seq<seq<Subscription>>>, now: int) {
    && (forall k :: 0 <= k < |rounds| ==> Round(rounds[k], CALM, now, now))
    && (forall k :: 0 < k < |rounds| ==> rounds[k][0] == rounds[k - 1][|RULES|])
  }

  lemma {:induction false} RoundsShrink(rounds: seq<seq<seq<Subscription>>>, now: int, rule: Rule)
    requires rounds != [] && FrozenRounds(rounds, now) && Sound(rounds[0][0])
    ensures var last := rounds[|rounds| - 1][|RULES|];
            Sound(last) && |last| == |rounds[0][0]|
            && (|Due(rule, last, now)| + |rounds| * BATCH <= |rounds[0][0]| || Due(rule, last, now) == {})
  {
    hide Round, Sound, Due;
    var n := |rounds| - 1;
    assert Round(rounds[n], CALM, now, now) && |rounds[n]| == |RULES| + 1 by { RoundLength(rounds[n], CALM, now, now); }
    if n == 0 {
      DueTenants(rule, rounds[0][0], now);
    } else {
      assert Round(rounds[n - 1], CALM, now, now);
      RoundLength(rounds[n - 1], CALM, now, now);
      RoundsShrink(rounds[..n], now, rule);
      assert rounds[n][0] == rounds[n - 1][|RULES|] && rounds[..n][n - 1] == rounds[n - 1] && rounds[..n][0] == rounds[0];
    }
    RoundShrinks(rounds[n], now, rule);
    if Due(rule, rounds[n][0], now) == {} {
      assert |Due(rule, rounds[n][0], now)| == 0;
    }
  }

  lemma RoundLength(stages: seq<seq<Subscription>>, troubles: seq<Trouble>, lo: int, hi: int)
    requires Round(stages, troubles, lo, hi)
    ensures |stages| == |RULES| + 1
  {
  }

  /** At a frozen time, as many rounds as the table has hundreds of rows leave nothing due. */
  lemma NothingStaysDue(rounds: seq<seq<seq<Subscription>>>, now: int, rule: Rule)
    requires rounds != [] && FrozenRounds(rounds, now) && Sound(rounds[0][0])
    requires |rounds| * BATCH >= |rounds[0][0]|
    ensures |rounds[|rounds| - 1]| == |RULES| + 1 && Due(rule, rounds[|rounds| - 1][|RULES|], now) == {}
  {
    hide Round, Sound, Due;
    RoundsShrink(rounds, now, rule);
    RoundLength(rounds[|rounds| - 1], CALM, now, now);
  }
}
