/** Challenges of the second factor: a few attempts, one success, a limited time. Every change
    is one guarded update, so calls may interleave in any way. */
module MfaChallenges {
  import opened Outcomes

  const MAX_ATTEMPTS := 5
  const RETENTION := 24 * 60 * 60

  datatype Challenge = Challenge(user: nat, attempts: nat, consumedAt: Option<int>, expiresAt: int, createdAt: int)

  datatype ChallengeError = NotFound | Consumed | Expired | Exhausted | Database

  /** A statement may fail before it takes effect, or its answer may be lost afterwards. */
  datatype Fault = NoFault | NotRun | AnswerLost

  predicate MayBegin(c: Challenge, user: nat, now: int) {
    c.user == user && c.consumedAt.None? && c.expiresAt > now && c.attempts < MAX_ATTEMPTS
  }

  predicate MayConsume(c: Challenge, user: nat, now: int) {
    c.user == user && c.consumedAt.None? && c.expiresAt > now
  }

  datatype Step = Issue(jti: string, user: nat, ttl: int, now: int, fault: Fault)
                | Begin(jti: string, user: nat, now: int, fault: Fault)
                | Consume(jti: string, user: nat, now: int, fault: Fault)
                | Purge(now: int, fault: Fault)

  type Challenges = map<string, Challenge>

  /** Whether a step finds a row it may change. */
  predicate Enabled(cs: Challenges, step: Step) {
    match step
    case Issue(jti, _, _, _, _) => jti !in cs
    case Begin(jti, user, now, _) => jti in cs && MayBegin(cs[jti], user, now)
    case Consume(jti, user, now, _) => jti in cs && MayConsume(cs[jti], user, now)
    case Purge(_, _) => true
  }

  /** The table after a step. */
  function Next(cs: Challenges, step: Step): Challenges {
    if step.fault.NotRun? || !Enabled(cs, step) then cs
    else match step
      case Issue(jti, user, ttl, now, _) => cs[jti := Challenge(user, 0, None, now + ttl, now)]
      case Begin(jti, _, _, _) => cs[jti := cs[jti].(attempts := cs[jti].attempts + 1)]
      case Consume(jti, _, now, _) => cs[jti := cs[jti].(consumedAt := Some(now))]
      case Purge(now, _) => map j | j in cs && !(cs[j].expiresAt < now - RETENTION) :: cs[j]
  }

  /** Whether the caller is told that the step succeeded. */
  predicate Succeeds(cs: Challenges, step: Step) {
    step.fault.NoFault? && Enabled(cs, step)
  }

  // ---------------------------------------------------------------- the store

  class MfaChallengeStore {
    var challenges: Challenges

    constructor ()
      ensures challenges == map[]
    {
      challenges := map[];
    }

    method IssueChallenge(jti: string, user: nat, ttl: int, now: int, fault: Fault) returns (ok: bool)
      modifies this
      ensures challenges == Next(old(challenges), Issue(jti, user, ttl, now, fault))
      ensures ok <==> Succeeds(old(challenges), Issue(jti, user, ttl, now, fault))
    {
      if fault == NotRun || jti in challenges { return false; }
      challenges := challenges[jti := Challenge(user, 0, None, now + ttl, now)];
      ok := fault == NoFault;
    }

    /** Records an attempt, or explains at a later moment why there is none. */
    method BeginChallenge(jti: string, user: nat, now: int, later: int, fault: Fault)
      returns (failure: Option<ChallengeError>)
      modifies this
      ensures challenges == Next(old(challenges), Begin(jti, user, now, fault))
      ensures failure.None? <==> Succeeds(old(challenges), Begin(jti, user, now, fault))
      ensures fault.NoFault? && failure.Some? ==> Explains(old(challenges), jti, user, later, failure.value)
      ensures !fault.NoFault? ==> failure == Some(Database)
    {
      if fault == NotRun { return Some(Database); }
      if jti in challenges && challenges[jti].user == user && challenges[jti].consumedAt == None
         && challenges[jti].expiresAt > now && challenges[jti].attempts < MAX_ATTEMPTS {
        challenges := challenges[jti := challenges[jti].(attempts := challenges[jti].attempts + 1)];
        return if fault == AnswerLost then Some(Database) else None;
      }
      if fault == AnswerLost { return Some(Database); }
      var explained := ExplainRejection(jti, user, later);
      failure := Some(explained);
    }

    method ExplainRejection(jti: string, user: nat, now: int) returns (error: ChallengeError)
      ensures Explains(challenges, jti, user, now, error)
    {
      if jti !in challenges { return NotFound; }
      var c := challenges[jti];
      if c.user != user { return NotFound; }
      if c.consumedAt != None { return Consumed; }
      if !(c.expiresAt > now) { return Expired; }
      if c.attempts >= MAX_ATTEMPTS { return Exhausted; }
      error := NotFound;
    }

    method ConsumeChallenge(jti: string, user: nat, now: int, fault: Fault) returns (failure: Option<ChallengeError>)
      modifies this
      ensures challenges == Next(old(challenges), Consume(jti, user, now, fault))
      ensures failure.None? <==> Succeeds(old(challenges), Consume(jti, user, now, fault))
      ensures failure.Some? ==> failure.value == if fault.NoFault? then Consumed else Database
    {
      if fault == NotRun { return Some(Database); }
      var matched := jti in challenges && challenges[jti].user == user
                     && challenges[jti].consumedAt == None && challenges[jti].expiresAt > now;
      if matched {
        challenges := challenges[jti := challenges[jti].(consumedAt := Some(now))];
      }
      if fault == AnswerLost { return Some(Database); }
      failure := if matched then None else Some(Consumed);
    }

    method PurgeChallenges(now: int, fault: Fault) returns (ok: bool)
      modifies this
      ensures challenges == Next(old(challenges), Purge(now, fault)) && ok == (fault == NoFault)
    {
      if fault == NotRun { return false; }
      var todo := challenges.Keys;
      while todo != {}
        invariant todo <= challenges.Keys
        invariant challenges == map j | j in old(challenges)
                                        && (j in todo || !(old(challenges)[j].expiresAt < now - RETENTION)) :: old(challenges)[j]
      {
        var j :| j in todo;
        if challenges[j].expiresAt < now - RETENTION {
          challenges := challenges - {j};
        }
        todo := todo - {j};
      }
      ok := fault == NoFault;
    }
  }

  // ---------------------------------------------------------------- why an attempt is refused

  /** Whether the challenge is known, to this user. */
  predicate Owned(cs: Challenges, jti: string, user: nat) {
    jti in cs && cs[jti].user == user
  }

  /** What each error tells about the challenge at a moment. */
  ghost predicate Explains(cs: Challenges, jti: string, user: nat, now: int, error: ChallengeError) {
    && (error == Consumed <==> Owned(cs, jti, user) && cs[jti].consumedAt.Some?)
    && (error == Expired <==> Owned(cs, jti, user) && cs[jti].consumedAt.None? && cs[jti].expiresAt <= now)
    && (error == Exhausted <==>
          && Owned(cs, jti, user) && cs[jti].consumedAt.None? && cs[jti].expiresAt > now
          && cs[jti].attempts >= MAX_ATTEMPTS)
    && (error == NotFound <==> !Owned(cs, jti, user) || MayBegin(cs[jti], user, now))
  }

  /** A refusal that is explained later, with nothing but time passing in between, never hides
      behind an unknown challenge, and names a condition that will block every later attempt. */
  lemma RefusalExplained(cs: Challenges, jti: string, user: nat, now: int, later: int, error: ChallengeError)
    requires !Enabled(cs, Begin(jti, user, now, NoFault)) && now <= later && Explains(cs, jti, user, later, error)
    ensures error == NotFound <==> !Owned(cs, jti, user)
    ensures error != Database && forall t :: t >= later ==> !Enabled(cs, Begin(jti, user, t, NoFault))
    ensures error == Exhausted ==> cs[jti].attempts >= MAX_ATTEMPTS
  {
  }

  /** Exactly what succeeds: an attempt and a completion of the user's own challenge, not yet
      completed and before its expiry, an attempt only while fewer than five have been made; and
      exactly what then changes. */
  lemma StepsExactly(cs: Challenges, jti: string, user: nat, ttl: int, now: int)
    ensures var open := jti in cs && cs[jti].user == user && cs[jti].consumedAt == None && now < cs[jti].expiresAt;
            && (Succeeds(cs, Begin(jti, user, now, NoFault)) <==> open && cs[jti].attempts < 5)
            && (Succeeds(cs, Consume(jti, user, now, NoFault)) <==> open)
            && Next(cs, Begin(jti, user, now, NoFault))
               == (if open && cs[jti].attempts < 5 then cs[jti := cs[jti].(attempts := cs[jti].attempts + 1)] else cs)
            && Next(cs, Consume(jti, user, now, NoFault))
               == (if open then cs[jti := cs[jti].(consumedAt := Some(now))] else cs)
            && (Succeeds(cs, Issue(jti, user, ttl, now, NoFault)) <==> jti !in cs)
            && (jti !in cs ==> Next(cs, Issue(jti, user, ttl, now, NoFault)) == cs[jti := Challenge(user, 0, None, now + ttl, now)])
            && Next(cs, Purge(now, NoFault)) == map j | j in cs && now <= cs[j].expiresAt + 86400 :: cs[j]
  {
  }

  // ---------------------------------------------------------------- any interleaving

  function Run(cs: Challenges, steps: seq<Step>): Challenges
    decreases |steps|
  {
    if steps == [] then cs else Run(Next(cs, steps[0]), steps[1..])
  }

  function Begins(cs: Challenges, steps: seq<Step>, jti: string): nat
    decreases |steps|
  {
    if steps == [] then 0
    else
      (if steps[0].Begin? && steps[0].jti == jti && Succeeds(cs, steps[0]) then 1 else 0)
      + Begins(Next(cs, steps[0]), steps[1..], jti)
  }

  function Consumes(cs: Challenges, steps: seq<Step>, jti: string): nat
    decreases |steps|
  {
    if steps == [] then 0
    else
      (if steps[0].Consume? && steps[0].jti == jti && Succeeds(cs, steps[0]) then 1 else 0)
      + Consumes(Next(cs, steps[0]), steps[1..], jti)
  }

  /** How many attempts a challenge still admits. */
  function AttemptsLeft(cs: Challenges, jti: string): nat {
    if jti !in cs || cs[jti].consumedAt.Some? || cs[jti].attempts >= MAX_ATTEMPTS then 0 else MAX_ATTEMPTS - cs[jti].attempts
  }

  predicate Reissues(step: Step, jti: string) {
    step.Issue? && step.jti == jti
  }

  lemma {:induction false} WithinBudget(cs: Challenges, steps: seq<Step>, jti: string)
    requires forall s <- steps :: !Reissues(s, jti)
    ensures Begins(cs, steps, jti) <= AttemptsLeft(cs, jti)
    ensures Consumes(cs, steps, jti) <= if jti in cs && cs[jti].consumedAt.None? then 1 else 0
    decreases |steps|
  {
    if steps != [] {
      assert !Reissues(steps[0], jti);
      WithinBudget(Next(cs, steps[0]), steps[1..], jti);
    }
  }

  /** However attempts, completions, purges and other challenges interleave after a challenge is
      issued, at most five attempts and at most one completion succeed. */
  lemma FiveAttemptsOneSuccess(cs: Challenges, issue: Step, steps: seq<Step>)
    requires issue.Issue? && Enabled(cs, issue) && !issue.fault.NotRun? && forall s <- steps :: !Reissues(s, issue.jti)
    ensures Begins(Next(cs, issue), steps, issue.jti) <= 5
    ensures Consumes(Next(cs, issue), steps, issue.jti) <= 1
  {
    WithinBudget(Next(cs, issue), steps, issue.jti);
  }

  /** Once a completion has taken effect no attempt and no completion succeeds, ever. */
  lemma NothingAfterSuccess(cs: Challenges, consume: Step, steps: seq<Step>)
    requires consume.Consume? && Enabled(cs, consume) && !consume.fault.NotRun? && forall s <- steps :: !Reissues(s, consume.jti)
    ensures Begins(Next(cs, consume), steps, consume.jti) == 0
    ensures Consumes(Next(cs, consume), steps, consume.jti) == 0
  {
    WithinBudget(Next(cs, consume), steps, consume.jti);
  }

  /** Nothing but a new issue moves the expiry, and past it nothing succeeds. */
  lemma {:induction false} NothingPastExpiry(cs: Challenges, steps: seq<Step>, last: Step, jti: string)
    requires jti in cs && forall s <- steps :: !Reissues(s, jti)
    requires (last.Begin? || last.Consume?) && last.jti == jti && last.now >= cs[jti].expiresAt
    ensures !Succeeds(Run(cs, steps), last)
    ensures jti in Run(cs, steps) ==> Run(cs, steps)[jti].expiresAt == cs[jti].expiresAt
    decreases |steps|
  {
    if steps != [] {
      assert !Reissues(steps[0], jti);
      var next := Next(cs, steps[0]);
      if jti in next {
        NothingPastExpiry(next, steps[1..], last, jti);
      } else {
        StaysGone(next, steps[1..], jti);
      }
    }
  }

  lemma {:induction false} StaysGone(cs: Challenges, steps: seq<Step>, jti: string)
    requires jti !in cs && forall s <- steps :: !Reissues(s, jti)
    ensures jti !in Run(cs, steps)
    decreases |steps|
  {
    if steps != [] {
      assert !Reissues(steps[0], jti);
      StaysGone(Next(cs, steps[0]), steps[1..], jti);
    }
  }

  /** The cap is no tighter than that: attempts of the owner in time succeed until it is used up. */
  lemma {:induction false} AttemptsAreGranted(cs: Challenges, steps: seq<Step>, jti: string)
    requires jti in cs && cs[jti].consumedAt.None? && cs[jti].attempts <= MAX_ATTEMPTS
    requires forall s <- steps ::
               s.Begin? && s.jti == jti && s.user == cs[jti].user && s.now < cs[jti].expiresAt && s.fault.NoFault?
    ensures Begins(cs, steps, jti) == if |steps| < AttemptsLeft(cs, jti) then |steps| else AttemptsLeft(cs, jti)
    decreases |steps|
  {
    if steps != [] {
      assert steps[0].Begin? && steps[0].user == cs[jti].user;
      AttemptsAreGranted(Next(cs, steps[0]), steps[1..], jti);
    }
  }
}
