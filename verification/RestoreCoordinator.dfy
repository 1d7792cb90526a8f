/** The external restore coordinator: the durable job and result files, the statuses one
    job goes through, and what holds over runs with crashes between any two writes. */
module RestoreCoordinator {
  import opened Outcomes
  import opened RestoreService

  datatype Status = Pending | Activating | Restarting | Verifying | RollingBack | Succeeded | JobFailed

  predicate IsTerminal(s: Status) {
    s == Succeeded || s == JobFailed
  }

  datatype JobResult = JobResult(status: Status, safetyBackupId: string, rolledBack: bool)

  // ---------------------------------------------------------------- the order of statuses

  function StatusOf(e: Event): seq<Status> {
    match e
    case RollbackStarted => [RollingBack]
    case Restart(_) => [Restarting]
    case Health(_) => [Verifying]
    case Activation(_, _) => []
  }

  /** The statuses the coordinator's hooks record while a restore runs. */
  function StatusesOf(es: seq<Event>): seq<Status> {
    if es == [] then [] else StatusOf(es[0]) + StatusesOf(es[1..])
  }

  function Outcome(stage: Option<StageResult>, failed: bool): Status {
    if !failed && Reports(stage, Activated) then Succeeded else JobFailed
  }

  function Progress(es: seq<Event>): seq<Status> {
    [Activating] + StatusesOf(es)
  }

  /** Where a job stands in its life, and which status may follow. */
  datatype Place = Start | Main(steps: nat) | Rollback(steps: nat) | Finished | Nowhere

  function Follow(p: Place, s: Status): Place {
    match (p, s)
    case (Start, Activating) => Main(0)
    case (Main(n), Restarting) => if n == 0 then Main(1) else Nowhere
    case (Main(n), Verifying) => if n == 1 then Main(2) else Nowhere
    case (Main(n), RollingBack) => Rollback(0)
    case (Rollback(n), Restarting) => if n == 0 then Rollback(1) else Nowhere
    case (Rollback(n), Verifying) => if n == 1 then Rollback(2) else Nowhere
    case (Main(n), JobFailed) => if n == 0 then Finished else Nowhere
    case (Rollback(n), JobFailed) => Finished
    case (Main(n), Succeeded) => if n == 2 then Finished else Nowhere
    case _ => Nowhere
  }

  function FollowAll(p: Place, ss: seq<Status>): Place
    decreases |ss|
  {
    if ss == [] then p else FollowAll(Follow(p, ss[0]), ss[1..])
  }

  lemma {:induction false} StatusesConcat(es: seq<Event>, fs: seq<Event>)
    ensures StatusesOf(es + fs) == StatusesOf(es) + StatusesOf(fs)
  {
    hide StatusOf;
    if es == [] {
      assert es + fs == fs;
    } else {
      StatusesConcat(es[1..], fs);
      assert (es + fs)[1..] == es[1..] + fs && (es + fs)[0] == es[0];
      var first, rest := StatusOf(es[0]), StatusesOf(es[1..]);
      assert first + (rest + StatusesOf(fs)) == (first + rest) + StatusesOf(fs);
    }
  }

  lemma {:induction false} FollowConcat(p: Place, ss: seq<Status>, ts: seq<Status>)
    ensures FollowAll(p, ss + ts) == FollowAll(FollowAll(p, ss), ts)
    decreases |ss|
  {
    if ss == [] {
      assert ss + ts == ts;
    } else {
      FollowConcat(Follow(p, ss[0]), ss[1..], ts);
      assert (ss + ts)[1..] == ss[1..] + ts;
    }
  }

  lemma StatusesOfThree(a: Event, b: Event, c: Event)
    ensures StatusesOf([a]) == StatusesOf([a]) + []
    ensures StatusesOf([a, b]) == StatusesOf([a]) + StatusesOf([b])
    ensures StatusesOf([a, b, c]) == StatusesOf([a]) + StatusesOf([b]) + StatusesOf([c])
  {
    StatusesConcat([a], [b]);
    StatusesConcat([a] + [b], [c]);
    assert [a] + [b] == [a, b] && [a, b] + [c] == [a, b, c];
  }

  /** A broken activation, in the main part or in the rollback, stays in its part. */
  lemma BrokenStatuses(id: string, es: seq<Event>)
    requires Broken(id, es)
    ensures var ss := StatusesOf(es); ss == [] || ss == [Restarting] || ss == [Restarting, Verifying]
  {
    StatusesOfThree(Activation(id, true), Restart(true), Health(false));
    StatusesOfThree(Activation(id, true), Restart(false), Health(false));
    StatusesOfThree(Activation(id, false), Restart(false), Health(false));
  }

  lemma CompletedStatuses(id: string)
    ensures StatusesOf(Completed(id)) == [Restarting, Verifying]
  {
    StatusesOfThree(Activation(id, true), Restart(true), Health(true));
  }

  lemma FollowSteps(p: Place, ss: seq<Status>)
    requires ss == [] || ss == [Restarting] || ss == [Restarting, Verifying]
    ensures p == Main(0) ==> FollowAll(p, ss) == Main(|ss|)
    ensures p == Rollback(0) ==> FollowAll(p, ss) == Rollback(|ss|)
  {
    if |ss| == 2 {
      assert ss[1..] == [Restarting, Verifying][1..] == [Verifying];
    }
  }

  lemma RollbackStatuses(safetyId: string, rolledBack: bool, es: seq<Event>, p: Place)
    requires RollbackEvents(safetyId, rolledBack, es) && p.Main?
    ensures FollowAll(p, StatusesOf(es)).Rollback?
  {
    var rest := es[1..];
    if rest != [] {
      if rolledBack {
        CompletedStatuses(safetyId);
      } else {
        BrokenStatuses(safetyId, rest);
      }
    }
    FollowSteps(Rollback(0), StatusesOf(rest));
  }

  /** The statuses of one run: activating; restarting and verifying as far as they go;
      rolling back, again with restarting and verifying; and one terminal status, which is
      success only after verifying and without a rollback. */
  lemma StatusOrder(id: string, safetyId: string, stage: Option<StageResult>, failed: bool, es: seq<Event>)
    requires RestoreEvents(id, safetyId, stage, failed, es)
    ensures FollowAll(Start, Progress(es) + [Outcome(stage, failed)]) == Finished
  {
    hide Broken, RollbackEvents, Completed;
    var last := Outcome(stage, failed);
    assert (Progress(es) + [last])[1..] == StatusesOf(es) + [last];
    FollowConcat(Main(0), StatusesOf(es), [last]);
    if es == [] {
    } else if Reports(stage, Activated) {
      CompletedStatuses(id);
      FollowSteps(Main(0), StatusesOf(es));
    } else {
      var k: nat :| k <= |es| && Broken(id, es[..k]) && RollbackEvents(safetyId, stage.value.rolledBack, es[k..]);
      assert es == es[..k] + es[k..];
      StatusesConcat(es[..k], es[k..]);
      BrokenStatuses(id, es[..k]);
      FollowSteps(Main(0), StatusesOf(es[..k]));
      FollowConcat(Main(0), StatusesOf(es[..k]), StatusesOf(es[k..]));
      RollbackStatuses(safetyId, stage.value.rolledBack, es[k..], FollowAll(Main(0), StatusesOf(es[..k])));
    }
  }

  // ---------------------------------------------------------------- one job

  type Results = map<string, JobResult>

  function Final(res: JobResult, stage: Option<StageResult>, failed: bool): JobResult {
    JobResult(Outcome(stage, failed),
              if stage.Some? then stage.value.safetyId else res.safetyBackupId,
              if stage.Some? then stage.value.rolledBack else res.rolledBack)
  }

  /** Every result a run writes for its job, in order. */
  function Writes(res: JobResult, stage: Option<StageResult>, failed: bool, es: seq<Event>): seq<JobResult> {
    WithStatuses(res, Progress(es)) + [Final(res, stage, failed)]
  }

  function WithStatuses(res: JobResult, ss: seq<Status>): seq<JobResult> {
    seq(|ss|, i requires 0 <= i < |ss| => res.(status := ss[i]))
  }

  /** The result file after some writes, of which the failing ones have no effect. */
  function WriteAll(results: Results, id: string, ws: seq<JobResult>, failing: set<nat>): Results {
    if ws == [] then results
    else
      var before := WriteAll(results, id, ws[..|ws| - 1], failing);
      if |ws| - 1 in failing then before else before[id := ws[|ws| - 1]]
  }

  lemma LastWrite(results: Results, id: string, ws: seq<JobResult>, last: JobResult, failing: set<nat>)
    ensures WriteAll(results, id, ws + [last], failing)
            == var before := WriteAll(results, id, ws, failing);
               if |ws| in failing then before else before[id := last]
  {
  }

  /** A job that cannot be trusted or served is recorded as failed. */
  function Fail(results: Results, id: string, ok: bool): Results {
    if id in results && ok then results[id := results[id].(status := JobFailed)] else results
  }

  /** The job is taken up: it can be read and its result is not terminal yet. */
  predicate TakenUp(queue: map<string, string>, results: Results, id: string, readable: bool) {
    readable && id in queue && id in results && !IsTerminal(results[id].status)
  }

  /** Exactly which jobs are taken up: those that can be read and have neither succeeded nor
      failed. */
  lemma TakenUpExactly(queue: map<string, string>, results: Results, id: string, readable: bool)
    ensures TakenUp(queue, results, id, readable) <==>
              && readable && id in queue && id in results
              && results[id].status in {Pending, Activating, Restarting, Verifying, RollingBack}
  {
  }

  /** Exactly what a failure that cannot be served leaves: a failed result where there was one. */
  lemma FailedExactly(results: Results, id: string)
    ensures Fail(results, id, true).Keys == results.Keys && Fail(results, id, false) == results
    ensures forall j <- results.Keys :: Fail(results, id, true)[j] ==
              if j == id then JobResult(JobFailed, results[j].safetyBackupId, results[j].rolledBack) else results[j]
  {
  }

  /** Exactly which results end a job well: an activated restore without an error. */
  lemma OutcomeExactly(res: JobResult, stage: Option<StageResult>, failed: bool)
    ensures var last := Final(res, stage, failed);
            && last.status in {Succeeded, JobFailed}
            && (last.status == Succeeded <==> !failed && stage.Some? && stage.value.status == Activated)
            && (stage.Some? ==> last.safetyBackupId == stage.value.safetyId && last.rolledBack == stage.value.rolledBack)
  {
  }

  /** One job of one invocation. A crash stops it after some of its writes. */
  datatype JobRun = JobRun(id: string, built: bool, readable: bool, stage: Option<StageResult>, failed: bool, es: seq<Event>,
                           failing: set<nat>, crashAfter: Option<nat>, removed: bool)

  /** The durable files, and the jobs a restore has been started for. */
  datatype World = World(queue: map<string, string>, results: Results, started: seq<string>)

  /** What reaches the result file: all of the writes, or those before the crash. */
  function Durable(ws: seq<JobResult>, crashAfter: Option<nat>): seq<JobResult> {
    if crashAfter.Some? && crashAfter.value < |ws| then ws[..crashAfter.value] else ws
  }

  function RunJob(w: World, r: JobRun): World {
    if !r.built || !r.readable || r.id !in w.queue then w.(results := Fail(w.results, r.id, 0 !in r.failing))
    else if !TakenUp(w.queue, w.results, r.id, r.readable) then w
    else
      var ws := Writes(w.results[r.id], r.stage, r.failed, r.es);
      w.(results := WriteAll(w.results, r.id, Durable(ws, r.crashAfter), r.failing),
         started := w.started + [r.id],
         queue := if r.crashAfter.None? && |ws| - 1 !in r.failing && r.removed then w.queue - {r.id} else w.queue)
  }

  class Coordinator {
    var queue: map<string, string>
    var results: Results

    constructor (queue: map<string, string>, results: Results)
      ensures this.queue == queue && this.results == results
    {
      this.queue, this.results := queue, results;
    }

    method WriteResult(id: string, res: JobResult, ok: bool)
      modifies this`results
      ensures results == if ok then old(results)[id := res] else old(results)
    {
      if ok {
        results := results[id := res];
      }
    }

    method FailJobResult(id: string, ok: bool)
      modifies this`results
      ensures results == Fail(old(results), id, ok)
    {
      if id in results {
        WriteResult(id, results[id].(status := JobFailed), ok);
      }
    }

    /** What the hooks write while the restore runs. */
    method RecordProgress(id: string, res: JobResult, ss: seq<Status>, failing: set<nat>)
      modifies this`results
      ensures results == WriteAll(old(results), id, WithStatuses(res, ss), failing)
    {
      var ws := WithStatuses(res, ss);
      for i := 0 to |ss|
        invariant results == WriteAll(old(results), id, ws[..i], failing)
      {
        assert ws[..i + 1][..i] == ws[..i];
        WriteResult(id, res.(status := ss[i]), i !in failing);
      }
      assert ws[..|ss|] == ws;
    }

    /** Takes one queued job to a durable terminal result. The restore is started only for a
        job whose result is not terminal, and success is recorded only for an activated
        backup. */
    method RunOneRestoreJob(svc: Service, id: string, readable: bool, f: RestoreFaults, failing: set<nat>,
                            removed: bool)
      returns (ok: bool, ghost stage: Option<StageResult>, ghost failed: bool, ghost es: seq<Event>)
      requires f.safetyId !in svc.backups
      modifies this, svc
      ensures World(queue, results, if TakenUp(old(queue), old(results), id, readable) then [id] else [])
              == RunJob(World(old(queue), old(results), []),
                        JobRun(id, true, readable, stage, failed, es, failing, None, removed))
      ensures !TakenUp(old(queue), old(results), id, readable) ==> unchanged(svc)
      ensures TakenUp(old(queue), old(results), id, readable) ==>
                && svc.events == old(svc.events) + es && RestoreEvents(old(queue)[id], f.safetyId, stage, failed, es)
                && (ok <==> Outcome(stage, failed) == Succeeded && |Progress(es)| !in failing)
      // A recorded success is a backup that is live.
      ensures TakenUp(old(queue), old(results), id, readable) && Outcome(stage, failed) == Succeeded ==>
                && old(queue)[id] in old(svc.backups)
                && var backup := old(svc.backups)[old(queue)[id]];
                   svc.Restored(backup, svc.live) <==> svc.NothingTorn(backup, f.main)
      // The service the coordinator builds registers no key path: no key ever changes.
      ensures svc.keyPaths == [] ==> svc.live.keys == old(svc.live).keys
    {
      hide RestoreEvents, WriteAll, StatusesOf, Service.Restored, Service.NothingTorn,
        Service.ComesUp, Service.SidecarsGone, Service.Undone, Service.IsSnapshot,
        Service.WholeSnapshot, Service.KeysComeBack;
      stage, failed, es := None, true, [];
      if !readable || id !in queue {
        FailJobResult(id, 0 !in failing);
        return false, stage, failed, es;
      }
      if id !in results { return false, stage, failed, es; }
      if IsTerminal(results[id].status) { return true, stage, failed, es; }
      var res := results[id];
      var seen := |svc.events|;
      var stage', failed' := svc.RestoreBackup(queue[id], f);
      stage, failed, es := stage', failed', svc.events[seen..];
      var ss := Progress(svc.events[seen..]);
      RecordProgress(id, res, ss, failing);
      var last := Final(res, stage', failed');
      WriteResult(id, last, |ss| !in failing);
      LastWrite(old(results), id, WithStatuses(res, ss), last, failing);
      if |ss| in failing { return false, stage, failed, es; }
      if removed {
        queue := queue - {id};
      }
      ok := last.status == Succeeded;
    }
  }

  // ---------------------------------------------------------------- runs with crashes

  /** A submission between its scan of the results and its last write. */
  datatype Submission = Scanned(backupId: string) | JobWritten(id: string)

  /** The durable files, and the submissions under way. */
  datatype System = System(w: World, submissions: map<nat, Submission>)

  /** A submission scans, writes its job file and writes its result file, each on its own; it
      may give up or crash in between. */
  datatype Action = Scan(who: nat, backupId: string) | WriteJob(who: nat, id: string) | WriteResult(who: nat) | GiveUp(who: nat)
                  | Drain(runs: seq<JobRun>)

  /** A drain: the jobs listed as pending, one after the other, until a crash. */
  function RunJobs(w: World, pending: set<string>, runs: seq<JobRun>): World
    decreases |runs|
  {
    if runs == [] then w
    else if runs[0].id !in pending then RunJobs(w, pending, runs[1..])
    else if runs[0].crashAfter.Some? then RunJob(w, runs[0])
    else RunJobs(RunJob(w, runs[0]), pending, runs[1..])
  }

  function PendingJobs(w: World): set<string> {
    set id | id in w.queue && (id !in w.results || !IsTerminal(w.results[id].status))
  }

  predicate HasActiveJob(results: Results) {
    exists id <- results.Keys :: !IsTerminal(results[id].status)
  }

  /** The submission has written its job file and not yet its result. */
  predicate JobIsWritten(s: System, who: nat) {
    who in s.submissions && s.submissions[who].JobWritten?
  }

  /** One durable step. A scan is refused while a job is active; a job file gets a fresh id. */
  function Act(s: System, a: Action): System {
    match a
    case Scan(who, backupId) =>
      if who in s.submissions || HasActiveJob(s.w.results) then s else s.(submissions := s.submissions[who := Scanned(backupId)])
    case WriteJob(who, id) =>
      if who !in s.submissions || !s.submissions[who].Scanned? || id in s.w.queue || id in s.w.results then s
      else System(s.w.(queue := s.w.queue[id := s.submissions[who].backupId]), s.submissions[who := JobWritten(id)])
    case WriteResult(who) =>
      if !JobIsWritten(s, who) then s
      else System(s.w.(results := s.w.results[s.submissions[who].id := JobResult(Pending, "", false)]), s.submissions - {who})
    case GiveUp(who) => s.(submissions := s.submissions - {who})
    case Drain(runs) => s.(w := RunJobs(s.w, PendingJobs(s.w), runs))
  }

  function ActAll(s: System, actions: seq<Action>): System
    decreases |actions|
  {
    if actions == [] then s else ActAll(Act(s, actions[0]), actions[1..])
  }

  lemma {:induction false} WritesKeepOthers(results: Results, id: string, ws: seq<JobResult>, failing: set<nat>)
    requires id in results
    ensures var after := WriteAll(results, id, ws, failing);
            after.Keys == results.Keys && forall other :: other in results && other != id ==> after[other] == results[other]
  {
    if ws != [] {
      WritesKeepOthers(results, id, ws[..|ws| - 1], failing);
    }
  }

  /** The job files of unfinished submissions are there, under ids of their own, without a result. */
  ghost predicate IdsApart(s: System) {
    && (forall i :: JobIsWritten(s, i) ==> s.submissions[i].id in s.w.queue && s.submissions[i].id !in s.w.results)
    && (forall i, j :: JobIsWritten(s, i) && JobIsWritten(s, j) && s.submissions[i].id == s.submissions[j].id ==> i == j)
  }

  /** A drain adds no results and removes only jobs that have one. */
  ghost predicate Framed(before: World, after: World) {
    && after.results.Keys == before.results.Keys
    && forall id <- before.queue.Keys :: id !in before.results ==> id in after.queue
  }

  lemma RunJobFramed(w: World, r: JobRun)
    ensures Framed(w, RunJob(w, r))
  {
    if r.built && TakenUp(w.queue, w.results, r.id, r.readable) {
      WritesKeepOthers(w.results, r.id, Durable(Writes(w.results[r.id], r.stage, r.failed, r.es), r.crashAfter), r.failing);
    }
  }

  lemma {:induction false} RunJobsFramed(w: World, pending: set<string>, runs: seq<JobRun>)
    ensures Framed(w, RunJobs(w, pending, runs))
    decreases |runs|
  {
    hide RunJob;
    if runs != [] {
      RunJobFramed(w, runs[0]);
      RunJobsFramed(if runs[0].id in pending then RunJob(w, runs[0]) else w, pending, runs[1..]);
    }
  }

  lemma ActKeepsIdsApart(s: System, a: Action)
    requires IdsApart(s)
    ensures IdsApart(Act(s, a))
  {
    hide RunJobs;
    if a.Drain? {
      RunJobsFramed(s.w, PendingJobs(s.w), a.runs);
      assert forall i :: JobIsWritten(Act(s, a), i) <==> JobIsWritten(s, i);
    }
  }

  function Count(ids: seq<string>, id: string): nat {
    if ids == [] then 0 else Count(ids[..|ids| - 1], id) + if ids[|ids| - 1] == id then 1 else 0
  }

  ghost predicate Settled(w: World, id: string) {
    id in w.results && IsTerminal(w.results[id].status)
  }

  /** A run of one job leaves the results, the files and the starts of all the others alone. */
  lemma RunJobAlone(w: World, r: JobRun, other: string)
    requires other != r.id
    ensures var next := RunJob(w, r);
            && (other in next.results <==> other in w.results) && (other in w.results ==> next.results[other] == w.results[other])
            && (other in next.queue <==> other in w.queue) && Count(next.started, other) == Count(w.started, other)
  {
    if r.built && TakenUp(w.queue, w.results, r.id, r.readable) {
      WritesKeepOthers(w.results, r.id, Durable(Writes(w.results[r.id], r.stage, r.failed, r.es), r.crashAfter), r.failing);
      assert (w.started + [r.id])[..|w.started|] == w.started;
    }
  }

  lemma RunJobKeepsFinished(w: World, r: JobRun, id: string)
    requires Settled(w, id)
    ensures Settled(RunJob(w, r), id) && Count(RunJob(w, r).started, id) == Count(w.started, id)
  {
    if TakenUp(w.queue, w.results, r.id, r.readable) && r.built {
      WritesKeepOthers(w.results, r.id, Durable(Writes(w.results[r.id], r.stage, r.failed, r.es), r.crashAfter), r.failing);
      assert (w.started + [r.id])[..|w.started|] == w.started;
    }
  }

  lemma {:induction false} RunJobsKeepFinished(w: World, pending: set<string>, runs: seq<JobRun>, id: string)
    requires Settled(w, id)
    ensures Settled(RunJobs(w, pending, runs), id) && Count(RunJobs(w, pending, runs).started, id) == Count(w.started, id)
    decreases |runs|
  {
    hide RunJob, Settled, Count;
    if runs != [] {
      RunJobKeepsFinished(w, runs[0], id);
      if runs[0].id !in pending {
        RunJobsKeepFinished(w, pending, runs[1..], id);
      } else if runs[0].crashAfter.None? {
        RunJobsKeepFinished(RunJob(w, runs[0]), pending, runs[1..], id);
      }
    }
  }

  /** Once a job's result is terminal it stays terminal, and no restore is ever started for
      the job again, over any sequence of submission steps, invocations and crashes. */
  lemma {:induction false} NeverRestoredAgain(s: System, actions: seq<Action>, id: string)
    requires IdsApart(s) && Settled(s.w, id)
    ensures Settled(ActAll(s, actions).w, id) && Count(ActAll(s, actions).w.started, id) == Count(s.w.started, id)
    decreases |actions|
  {
    hide RunJobs;
    if actions != [] {
      if actions[0].Drain? {
        RunJobsKeepFinished(s.w, PendingJobs(s.w), actions[0].runs, id);
      }
      ActKeepsIdsApart(s, actions[0]);
      NeverRestoredAgain(Act(s, actions[0]), actions[1..], id);
    }
  }

  // ---------------------------------------------------------------- one restore at a time

  /** At most one job has a result that is not terminal. */
  ghost predicate OneActive(results: Results) {
    forall a, b :: a in results && b in results && !IsTerminal(results[a].status) && !IsTerminal(results[b].status) ==> a == b
  }

  /** A run of a job activates nothing. */
  ghost predicate NoneActivated(before: Results, after: Results) {
    forall id :: id in after && !IsTerminal(after[id].status) ==> id in before && !IsTerminal(before[id].status)
  }

  lemma RunJobActivatesNone(w: World, r: JobRun)
    ensures NoneActivated(w.results, RunJob(w, r).results)
  {
    if TakenUp(w.queue, w.results, r.id, r.readable) && r.built {
      WritesKeepOthers(w.results, r.id, Durable(Writes(w.results[r.id], r.stage, r.failed, r.es), r.crashAfter), r.failing);
    }
  }

  lemma {:induction false} RunJobsActivateNone(w: World, pending: set<string>, runs: seq<JobRun>)
    ensures NoneActivated(w.results, RunJobs(w, pending, runs).results)
    decreases |runs|
  {
    hide RunJob;
    if runs != [] {
      RunJobActivatesNone(w, runs[0]);
      RunJobsActivateNone(if runs[0].id in pending then RunJob(w, runs[0]) else w, pending, runs[1..]);
    }
  }

  /** Every state of the run has at most one active job. */
  ghost predicate AlwaysOne(s: System, actions: seq<Action>)
    decreases |actions|
  {
    OneActive(s.w.results) && (actions == [] || AlwaysOne(Act(s, actions[0]), actions[1..]))
  }

  /** No submission writes its result while a job is active. */
  ghost predicate NoneOvertaken(s: System, actions: seq<Action>)
    decreases |actions|
  {
    actions == []
    || (&& (actions[0].WriteResult? && JobIsWritten(s, actions[0].who) ==> !HasActiveJob(s.w.results))
        && NoneOvertaken(Act(s, actions[0]), actions[1..]))
  }

  lemma ActOneActive(s: System, a: Action)
    requires IdsApart(s) && OneActive(s.w.results)
    ensures OneActive(Act(s, a).w.results) <==> (a.WriteResult? && JobIsWritten(s, a.who) ==> !HasActiveJob(s.w.results))
  {
    hide RunJobs;
    if a.Drain? {
      RunJobsActivateNone(s.w, PendingJobs(s.w), a.runs);
    } else if a.WriteResult? && JobIsWritten(s, a.who) && HasActiveJob(s.w.results) {
      var id :| id in s.w.results && !IsTerminal(s.w.results[id].status);
      var after := Act(s, a).w.results;
      assert id in after && s.submissions[a.who].id in after && after[id] == s.w.results[id];
    }
  }

  /** Exactly which runs have one restore at a time throughout: those in which no submission
      is overtaken between its scan and its result. */
  lemma {:induction false} OneRestoreExactly(s: System, actions: seq<Action>)
    requires IdsApart(s) && OneActive(s.w.results)
    ensures AlwaysOne(s, actions) <==> NoneOvertaken(s, actions)
    decreases |actions|
  {
    hide Act, IdsApart, OneActive, HasActiveJob, JobIsWritten;
    if actions != [] {
      ActOneActive(s, actions[0]);
      ActKeepsIdsApart(s, actions[0]);
      if OneActive(Act(s, actions[0]).w.results) {
        OneRestoreExactly(Act(s, actions[0]), actions[1..]);
      }
    }
  }

  /** Submissions do not overlap: none scans while another is under way. */
  ghost predicate Separate(s: System, actions: seq<Action>)
    decreases |actions|
  {
    actions == []
    || ((actions[0].Scan? ==> s.submissions == map[]) && Separate(Act(s, actions[0]), actions[1..]))
  }

  /** At most one submission is under way, and no job is active meanwhile. */
  ghost predicate Alone(s: System) {
    && (forall i, j :: i in s.submissions && j in s.submissions ==> i == j)
    && (s.submissions != map[] ==> !HasActiveJob(s.w.results))
  }

  lemma ActKeepsAlone(s: System, a: Action)
    requires Alone(s) && (a.Scan? ==> s.submissions == map[])
    ensures Alone(Act(s, a))
  {
    hide RunJobs;
    if a.Drain? {
      RunJobsActivateNone(s.w, PendingJobs(s.w), a.runs);
    } else if a.WriteResult? && JobIsWritten(s, a.who) {
      assert Act(s, a).submissions == map[];
    }
  }

  /** One restore at a time, over any sequence of invocations and crashes, as long as
      submissions do not overlap. */
  lemma {:induction false} OneRestoreAtATime(s: System, actions: seq<Action>)
    requires IdsApart(s) && OneActive(s.w.results) && Alone(s) && Separate(s, actions)
    ensures AlwaysOne(s, actions)
    decreases |actions|
  {
    hide Act, IdsApart, OneActive, JobIsWritten, HasActiveJob;
    if actions != [] {
      ActOneActive(s, actions[0]);
      ActKeepsIdsApart(s, actions[0]);
      ActKeepsAlone(s, actions[0]);
      WriterAlone(s, actions[0]);
      OneRestoreAtATime(Act(s, actions[0]), actions[1..]);
    }
  }

  lemma WriterAlone(s: System, a: Action)
    requires Alone(s)
    ensures a.WriteResult? && JobIsWritten(s, a.who) ==> !HasActiveJob(s.w.results)
  {
  }

  lemma ActSix(s: System, a: Action, b: Action, c: Action, d: Action, e: Action, f: Action)
    ensures ActAll(s, [a, b, c, d, e, f]) == Act(Act(Act(Act(Act(Act(s, a), b), c), d), e), f)
  {
    hide Act;
    var s2 := Act(Act(s, a), b);
    var s4 := Act(Act(s2, c), d);
    ActTwo(s, [a, b, c, d, e, f]);
    ActTwo(s2, [c, d, e, f]);
    ActTwo(s4, [e, f]);
    assert [a, b, c, d, e, f][2..] == [c, d, e, f] && [c, d, e, f][2..] == [e, f] && [e, f][2..] == [];
  }

  lemma ActTwo(s: System, actions: seq<Action>)
    requires |actions| >= 2
    ensures ActAll(s, actions) == ActAll(Act(Act(s, actions[0]), actions[1]), actions[2..])
  {
    hide Act;
    assert actions[1..][0] == actions[1] && actions[1..][1..] == actions[2..];
  }

  /** Two submissions that both scan before either writes leave two active jobs. */
  lemma OverlapLeavesTwo(a: string, b: string)
    ensures var run := [Scan(1, a), Scan(2, b), WriteJob(1, "x"), WriteResult(1), WriteJob(2, "y"), WriteResult(2)];
            !OneActive(ActAll(System(World(map[], map[], []), map[]), run).w.results)
  {
    hide ActAll;
    var s0 := System(World(map[], map[], []), map[]);
    ActSix(s0, Scan(1, a), Scan(2, b), WriteJob(1, "x"), WriteResult(1), WriteJob(2, "y"), WriteResult(2));
    var s2 := Act(Act(s0, Scan(1, a)), Scan(2, b));
    assert s2 == System(World(map[], map[], []), map[1 := Scanned(a), 2 := Scanned(b)]);
    var s4 := Act(Act(s2, WriteJob(1, "x")), WriteResult(1));
    var s6 := Act(Act(s4, WriteJob(2, "y")), WriteResult(2));
    assert "x" in s6.w.results && "y" in s6.w.results && "x" != "y";
  }
}
