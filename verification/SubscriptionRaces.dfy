/** Creations, renewals, plan changes and transitions side by side: a creation locks the row it
    finds, a transition reads its row without a lock and updates it later. */
module SubscriptionRaces {
  import opened Outcomes
  import opened SubscriptionStatus
  import opened Subscriptions

  /** How far a transaction has come. */
  datatype Phase = Idle
                 | Absent(tenant: nat, terms: Terms)
                 | Renewing(tenant: nat, row: nat, terms: Terms)
                 | Moving(tenant: nat, was: Subscription, to: Status)

  datatype System = System(rows: seq<Subscription>, phases: map<nat, Phase>)

  datatype Step = LookUp(who: nat, tenant: nat, terms: Terms) | Write(who: nat)
                | ReadRow(who: nat, tenant: nat, to: Status) | Move(who: nat, now: int)
                | Replan(tenant: nat, planId: string, plan: Plan, now: int) | Abort(who: nat)

  function PhaseOf(s: System, who: nat): Phase {
    if who in s.phases then s.phases[who] else Idle
  }

  predicate Holds(p: Phase, tenant: nat) {
    p.Renewing? && p.tenant == tenant
  }

  /** Another transaction holds the lock on the tenant's row. */
  predicate Taken(s: System, tenant: nat, who: Option<nat>) {
    exists i <- s.phases.Keys :: who != Some(i) && Holds(s.phases[i], tenant)
  }

  function SetPhase(s: System, who: nat, p: Phase): System {
    s.(phases := s.phases[who := p])
  }

  function Next(s: System, step: Step): System {
    match step
    case LookUp(i, tenant, terms) =>
      var found := Latest(s.rows, tenant);
      LatestIsARow(s.rows, tenant);
      if !PhaseOf(s, i).Idle? || Taken(s, tenant, Some(i)) then s
      else if found.None? then SetPhase(s, i, Absent(tenant, terms))
      else if Renewable(s.rows[found.value].status) then SetPhase(s, i, Renewing(tenant, found.value, terms))
      else s
    case Write(i) =>
      var p := PhaseOf(s, i);
      if p.Absent? then
        SetPhase(if Subscribed(s.rows, p.tenant) then s else s.(rows := s.rows + [NewRow(p.tenant, p.terms)]), i, Idle)
      else if p.Renewing? && p.row < |s.rows| then
        SetPhase(s.(rows := s.rows[p.row := Renewed(s.rows[p.row], p.terms)]), i, Idle)
      else s
    case ReadRow(i, tenant, to) =>
      var found := Latest(s.rows, tenant);
      LatestIsARow(s.rows, tenant);
      if PhaseOf(s, i).Idle? && found.Some? && to in ValidTargets(s.rows[found.value].status)
      then SetPhase(s, i, Moving(tenant, s.rows[found.value], to)) else s
    case Move(i, now) =>
      var p := PhaseOf(s, i);
      if !p.Moving? || Taken(s, p.tenant, None) then s
      else SetPhase(s.(rows := MoveAll(s.rows, p.tenant, ReadingOf(p.was), p.to, now)), i, Idle)
    case Replan(tenant, planId, plan, now) =>
      if Taken(s, tenant, None) then s else s.(rows := ReplanAll(s.rows, tenant, planId, plan, now))
    case Abort(i) => SetPhase(s, i, Idle)
  }

  function Run(s: System, steps: seq<Step>): System {
    if steps == [] then s else Next(Run(s, steps[..|steps| - 1]), steps[|steps| - 1])
  }

  /** What a transaction under way has found. */
  ghost predicate PhaseTrue(rows: seq<Subscription>, p: Phase) {
    match p
    case Idle => true
    case Absent(_, _) => true
    case Renewing(tenant, row, _) => row < |rows| && rows[row].tenant == tenant && Renewable(rows[row].status)
    case Moving(_, was, to) => Consistent(was) && to in ValidTargets(was.status)
  }

  ghost predicate OneHolder(s: System) {
    forall i, j, t :: i in s.phases && j in s.phases && Holds(s.phases[i], t) && Holds(s.phases[j], t) ==> i == j
  }

  ghost predicate Inv(s: System) {
    Subscriptions.Sound(s.rows) && OneHolder(s) && forall i <- s.phases.Keys :: PhaseTrue(s.rows, s.phases[i])
  }

  lemma PhaseSet(s: System, who: nat, p: Phase)
    requires Inv(s) && PhaseTrue(s.rows, p) && forall t :: Holds(p, t) ==> !Taken(s, t, Some(who))
    ensures Inv(SetPhase(s, who, p))
  {
  }

  /** Rows of tenants whose row is not locked may change as long as the table stays sound. */
  lemma RowsSet(s: System, rows: seq<Subscription>, tenant: nat)
    requires Inv(s) && Sound(rows) && |s.rows| <= |rows| && !Taken(s, tenant, None)
    requires forall i :: 0 <= i < |s.rows| ==>
               rows[i].tenant == s.rows[i].tenant && (rows[i] == s.rows[i] || rows[i].tenant == tenant)
    ensures Inv(s.(rows := rows))
  {
  }

  lemma WriteKeeps(s: System, i: nat)
    requires Inv(s)
    ensures Inv(Next(s, Write(i)))
  {
    hide Sound, NewRow, Renewed;
    var p := PhaseOf(s, i);
    var idle := SetPhase(s, i, Idle);
    PhaseSet(s, i, Idle);
    if p.Absent? && !Subscribed(s.rows, p.tenant) {
      WrittenSound(s.rows, p.tenant, p.terms);
      LatestIsARow(s.rows, p.tenant);
      forall j | j in idle.phases ensures !Holds(idle.phases[j], p.tenant) {
        assert PhaseTrue(s.rows, idle.phases[j]);
      }
      RowsSet(idle, s.rows + [NewRow(p.tenant, p.terms)], p.tenant);
    }
    if p.Renewing? {
      assert PhaseTrue(s.rows, p) && Holds(p, p.tenant);
      WrittenSound(s.rows, p.tenant, p.terms);
      RenewedTenant(s.rows[p.row], p.terms);
      RowsSet(idle, s.rows[p.row := Renewed(s.rows[p.row], p.terms)], p.tenant);
    }
  }

  lemma RenewedTenant(row: Subscription, t: Terms)
    ensures Renewed(row, t).tenant == row.tenant
  {
  }

  lemma MoveKeeps(s: System, i: nat, now: int)
    requires Inv(s)
    ensures Inv(Next(s, Move(i, now)))
  {
    hide Sound, Moved, Consistent;
    var p := PhaseOf(s, i);
    if p.Moving? && !Taken(s, p.tenant, None) {
      assert PhaseTrue(s.rows, p);
      MoveAllSound(s.rows, p.tenant, p.was, p.to, now);
      var rows := MoveAll(s.rows, p.tenant, ReadingOf(p.was), p.to, now);
      forall j | 0 <= j < |rows| ensures rows[j].tenant == s.rows[j].tenant {
        MovedTenant(s.rows[j], ReadingOf(p.was), p.to, now);
      }
      RowsSet(s, rows, p.tenant);
      PhaseSet(s.(rows := rows), i, Idle);
    }
  }

  lemma StepKeeps(s: System, step: Step)
    requires Inv(s)
    ensures Inv(Next(s, step))
  {
    hide Sound, OneHolder, Consistent;
    match step
    case LookUp(i, tenant, terms) =>
      LatestIsARow(s.rows, tenant);
      var found := Latest(s.rows, tenant);
      PhaseSet(s, i, Absent(tenant, terms));
      if found.Some? && Renewable(s.rows[found.value].status) && !Taken(s, tenant, Some(i)) {
        PhaseSet(s, i, Renewing(tenant, found.value, terms));
      }
    case Write(i) => WriteKeeps(s, i);
    case ReadRow(i, tenant, to) =>
      LatestIsARow(s.rows, tenant);
      var found := Latest(s.rows, tenant);
      if found.Some? && to in ValidTargets(s.rows[found.value].status) {
        SoundRow(s.rows, found.value);
        PhaseSet(s, i, Moving(tenant, s.rows[found.value], to));
      }
    case Move(i, now) => MoveKeeps(s, i, now);
    case Replan(tenant, planId, plan, now) =>
      if !Taken(s, tenant, None) {
        ReplanAllSound(s.rows, tenant, planId, plan, now);
        RowsSet(s, ReplanAll(s.rows, tenant, planId, plan, now), tenant);
      }
    case Abort(i) => PhaseSet(s, i, Idle);
  }

  /** Whatever runs side by side, no tenant ever has two rows and the dates of every row fit
      its status; and a renewal about to be written still finds an ended subscription. */
  lemma {:induction false} AlwaysSound(steps: seq<Step>)
    ensures var s := Run(System([], map[]), steps);
            Inv(s) && Sound(s.rows)
            && forall i <- s.phases.Keys :: s.phases[i].Renewing? ==>
                 s.phases[i].row < |s.rows| && Renewable(s.rows[s.phases[i].row].status)
  {
    hide Next;
    if steps != [] {
      var n := |steps| - 1;
      AlwaysSound(steps[..n]);
      StepKeeps(Run(System([], map[]), steps[..n]), steps[n]);
    }
  }

  /** Undisturbed, the steps do what the calls do. */
  lemma CallsAreSteps(s: System, who: nat, tenant: nat, terms: Terms, to: Status, now: int)
    requires Sound(s.rows) && forall i <- s.phases.Keys :: s.phases[i].Idle?
    ensures var r := Create(s.rows, tenant, terms);
            Next(Next(s, LookUp(who, tenant, terms)), Write(who)).rows == if r.Ok? then r.value else s.rows
    ensures var r := Transition(s.rows, tenant, to, now);
            Next(Next(s, ReadRow(who, tenant, to)), Move(who, now)).rows == if r.Ok? then r.value else s.rows
  {
    hide Sound, Latest, NewRow, Renewed, ValidTargets, MoveAll;
    LatestIsARow(s.rows, tenant);
    assert !Taken(s, tenant, Some(who));
    assert PhaseOf(s, who) == Idle;
    var looked := Next(s, LookUp(who, tenant, terms));
    assert looked.rows == s.rows;
    var found := Latest(s.rows, tenant);
    assert PhaseOf(looked, who) == if found.None? then Absent(tenant, terms)
                                   else if Renewable(s.rows[found.value].status) then Renewing(tenant, found.value, terms)
                                   else Idle;
  }

  // ---------------------------------------------------------------- when every change is legal

  /** A transition whose update goes through. */
  predicate Effective(s: System, step: Step) {
    step.Move? && PhaseOf(s, step.who).Moving? && !Taken(s, PhaseOf(s, step.who).tenant, None)
  }

  /** The transition still fits the row it is written to. */
  predicate MoveFits(s: System, step: Step) {
    Effective(s, step) ==>
      var p := PhaseOf(s, step.who);
      forall r <- s.rows :: r.tenant == p.tenant ==> p.to == r.status || p.to in ValidTargets(r.status)
  }

  /** Whatever status changes, changes by a valid transition or by renewing an ended row. */
  predicate Legal(s: System, step: Step) {
    var after := Next(s, step).rows;
    && |s.rows| <= |after|
    && forall j :: 0 <= j < |s.rows| ==>
         var a, b := s.rows[j].status, after[j].status;
         a == b || (if step.Write? then Renewable(a) else b in ValidTargets(a))
  }

  lemma LegalExactly(s: System, step: Step)
    requires Inv(s)
    ensures Legal(s, step) <==> MoveFits(s, step)
  {
    hide Consistent, OneEach;
    if step.Write? {
      assert PhaseTrue(s.rows, PhaseOf(s, step.who));
    }
    if Effective(s, step) && Legal(s, step) {
      var p := PhaseOf(s, step.who);
      forall r | r in s.rows && r.tenant == p.tenant ensures p.to == r.status || p.to in ValidTargets(r.status) {
        var j :| 0 <= j < |s.rows| && s.rows[j] == r;
        assert Next(s, step).rows[j].status == p.to;
      }
    }
  }

  predicate AlwaysLegal(s: System, steps: seq<Step>)
    decreases |steps|
  {
    steps == [] || (Legal(s, steps[0]) && AlwaysLegal(Next(s, steps[0]), steps[1..]))
  }

  predicate AlwaysFits(s: System, steps: seq<Step>)
    decreases |steps|
  {
    steps == [] || (MoveFits(s, steps[0]) && AlwaysFits(Next(s, steps[0]), steps[1..]))
  }

  /** Exactly which interleavings change statuses legally throughout: those in which every
      transition still fits the row it is written to. */
  lemma {:induction false} LegalRunsExactly(s: System, steps: seq<Step>)
    requires Inv(s)
    ensures AlwaysLegal(s, steps) <==> AlwaysFits(s, steps)
    decreases |steps|
  {
    hide Next, Inv, Legal, MoveFits;
    if steps != [] {
      LegalExactly(s, steps[0]);
      StepKeeps(s, steps[0]);
      LegalRunsExactly(Next(s, steps[0]), steps[1..]);
    }
  }

  /** The tenant whose status a step may write. */
  function StatusWritten(s: System, step: Step): Option<nat> {
    if step.Write? && (PhaseOf(s, step.who).Absent? || PhaseOf(s, step.who).Renewing?) then Some(PhaseOf(s, step.who).tenant)
    else if Effective(s, step) then Some(PhaseOf(s, step.who).tenant)
    else None
  }

  /** The transitions whose tenant has been written since they read its row. */
  function Overtaken(s: System, step: Step, overtaken: set<nat>): set<nat> {
    if step.ReadRow? && PhaseOf(s, step.who).Idle? then overtaken - {step.who}
    else if StatusWritten(s, step).Some? then
      overtaken + set i | i in s.phases && s.phases[i].Moving? && s.phases[i].tenant == StatusWritten(s, step).value
    else overtaken
  }

  /** No transition is overtaken between its reading and its update. */
  predicate Undisturbed(s: System, steps: seq<Step>, overtaken: set<nat>)
    decreases |steps|
  {
    steps == []
    || (&& (Effective(s, steps[0]) ==> steps[0].who !in overtaken)
        && Undisturbed(Next(s, steps[0]), steps[1..], Overtaken(s, steps[0], overtaken)))
  }

  /** The others have read the status that still stands. */
  ghost predicate Current(s: System, overtaken: set<nat>) {
    forall i <- s.phases.Keys :: s.phases[i].Moving? && i !in overtaken ==>
      forall r <- s.rows :: r.tenant == s.phases[i].tenant ==> r.status == s.phases[i].was.status
  }

  /** Where no status is written, every row has the status it had. */
  lemma StatusKept(s: System, step: Step, r: Subscription)
    requires Inv(s) && r in Next(s, step).rows && StatusWritten(s, step) != Some(r.tenant)
    ensures exists q <- s.rows :: q.tenant == r.tenant && q.status == r.status
  {
    hide Consistent, ValidTargets, OneEach;
    var rows := Next(s, step).rows;
    var j :| 0 <= j < |rows| && rows[j] == r;
    if step.Write? {
      assert PhaseTrue(s.rows, PhaseOf(s, step.who));
    }
    assert j < |s.rows| ==> s.rows[j] in s.rows;
  }

  /** A transition under way has been so, or has just read its tenant's row. */
  lemma MovingKept(s: System, step: Step, i: nat)
    requires i in Next(s, step).phases && Next(s, step).phases[i].Moving?
    ensures var p := Next(s, step).phases[i];
            || (i in s.phases && s.phases[i] == p && !(step.ReadRow? && step.who == i && PhaseOf(s, i).Idle?))
            || (step.ReadRow? && step.who == i && PhaseOf(s, i).Idle? && Next(s, step).rows == s.rows
                && p.was in s.rows && p.was.tenant == p.tenant)
  {
    hide ValidTargets, Latest;
    if step.ReadRow? {
      LatestIsARow(s.rows, step.tenant);
    }
  }

  lemma CurrentKeeps(s: System, step: Step, overtaken: set<nat>)
    requires Inv(s) && Current(s, overtaken)
    ensures Current(Next(s, step), Overtaken(s, step, overtaken))
  {
    hide Consistent, ValidTargets, Next, Taken, OneEach;
    var next := Next(s, step);
    forall i, r | i in next.phases && next.phases[i].Moving? && i !in Overtaken(s, step, overtaken)
                  && r in next.rows && r.tenant == next.phases[i].tenant
      ensures r.status == next.phases[i].was.status
    {
      MovingKept(s, step, i);
      if step.ReadRow? && step.who == i && PhaseOf(s, i).Idle? {
        SameRow(s.rows, r, next.phases[i].was);
      } else if StatusWritten(s, step) != Some(r.tenant) {
        StatusKept(s, step, r);
      }
    }
  }

  lemma SameRow(rows: seq<Subscription>, a: Subscription, b: Subscription)
    requires Sound(rows) && a in rows && b in rows && a.tenant == b.tenant
    ensures a == b
  {
  }

  /** Every status change is a valid transition or the renewal of an ended subscription in any
      interleaving in which no tenant is written between a transition's reading and its update. */
  lemma {:induction false} UndisturbedRunsLegal(s: System, steps: seq<Step>, overtaken: set<nat>)
    requires Inv(s) && Current(s, overtaken) && Undisturbed(s, steps, overtaken)
    ensures AlwaysLegal(s, steps)
    decreases |steps|
  {
    hide Next, Inv, Legal, Overtaken, Current, Effective;
    if steps != [] {
      UndisturbedFits(s, steps[0], overtaken);
      LegalExactly(s, steps[0]);
      StepKeeps(s, steps[0]);
      CurrentKeeps(s, steps[0], overtaken);
      UndisturbedRunsLegal(Next(s, steps[0]), steps[1..], Overtaken(s, steps[0], overtaken));
    }
  }

  lemma UndisturbedFits(s: System, step: Step, overtaken: set<nat>)
    requires Inv(s) && Current(s, overtaken) && (Effective(s, step) ==> step.who !in overtaken)
    ensures MoveFits(s, step)
  {
    hide Sound, ValidTargets;
    if Effective(s, step) {
      assert PhaseTrue(s.rows, PhaseOf(s, step.who));
    }
  }

  /** A transition that read the row before a renewal can end the renewed subscription. */
  lemma StaleTransitionEndsRenewal(row: Subscription, terms: Terms, now: int)
    requires row.status == Cancelled
    ensures var s0 := System([row], map[]);
            var s1 := Next(s0, ReadRow(1, row.tenant, Expired));
            var s2 := Next(Next(s1, LookUp(2, row.tenant, terms)), Write(2));
            s2.rows == [Renewed(row, terms)] && Next(s2, Move(1, now)).rows[0].status == Expired
  {
    assert Latest([row], row.tenant) == Some(0);
  }
}
