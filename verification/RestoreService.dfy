/** Restoring a backup over a live system, with a safety backup and a rollback, when any
    step may fail and a copy may silently fall short. */
module RestoreService {
  import opened Outcomes
  import Format = ArchiveFormat

  type Content = string
  type Tree = map<string, Content>

  /** The payload of a canonical backup archive. The secrets are filed under the base names
      of the key paths. */
  datatype Archive = Archive(product: string, version: int, database: Option<Content>,
                             mail: Option<Tree>, attachments: Option<Tree>, secrets: Tree)

  /** What a restore replaces. A directory that does not exist is None. */
  datatype LiveState = LiveState(database: Content, sidecars: set<string>, mail: Option<Tree>,
                                 attachments: Option<Tree>, keys: Tree)

  datatype RestoreStatus = Activated | Failed | RolledBack

  datatype StageResult = StageResult(status: RestoreStatus, rolledBack: bool, backupId: string, safetyId: string)

  /** What an observer of a restore sees, in order. */
  datatype Event = RollbackStarted | Activation(archiveId: string, ok: bool) | Restart(ok: bool) | Health(ok: bool)

  // ---------------------------------------------------------------- what may go wrong

  /** Replacing a directory: a failure before the swap leaves it as it was; a failure in the
      swap leaves it as it was or, when moving it back fails as well, missing. */
  datatype DirFault = DirOk | DirBeforeSwap | DirInSwap(movedBack: bool)

  /** pg_restore may stop half-way; the SQLite file is replaced atomically. */
  datatype DatabaseFault = DatabaseOk | DatabaseUntouched | DatabasePartial(left: Content)

  /** The fate of one activation. The torn trees hold, for files whose copy fell short
      without an error, what has arrived of them. */
  datatype ActivationFaults = ActivationFaults(
    staged: bool, manifest: bool, tornDatabase: Tree, tornSecrets: Tree,
    database: DatabaseFault, sidecarsKept: set<string>,
    mail: DirFault, tornMail: Tree, attachments: DirFault, tornAttachments: Tree,
    keysReplaced: nat, permissions: bool, restart: bool, health: bool)

  datatype Verdict = ValidationError | Invalid | Valid

  /** What happens to a file the snapshot's walk comes to. The walk goes on after a file it cannot
      read about; it ends, without an error, at one whose header cannot be written or whose
      content does not follow its header whole. */
  datatype Fate = Fine | Skipped | HeaderFailed | CutOff

  datatype Visit = Visit(name: string, fate: Fate)

  /** The fate of a restore up to its activation. */
  datatype RestoreFaults = RestoreFaults(
    maintenance: bool, restartConfigured: bool, healthConfigured: bool, verdict: Verdict,
    safetyOk: bool, safetyId: string, databaseDumped: bool,
    mailWalk: seq<Visit>, attachmentWalk: seq<Visit>,
    main: ActivationFaults, rollback: ActivationFaults)

  /** What arrives when files are copied and some copies fall short. */
  function Arrived(files: Tree, torn: Tree): Tree {
    map name | name in files :: if name in torn then torn[name] else files[name]
  }

  ghost predicate Intact(files: Tree, torn: Tree) {
    forall name :: name in files && name in torn ==> torn[name] == files[name]
  }

  lemma ArrivedWhole(files: Tree, torn: Tree)
    ensures Arrived(files, torn) == files <==> Intact(files, torn)
  {
  }

  /** The database snapshot travels under this name. */
  const DATABASE_NAME := "orvix.db"

  function Files(dir: Option<Tree>): Tree {
    if dir.Some? then dir.value else map[]
  }

  // ---------------------------------------------------------------- a snapshot's walk

  const MESSAGES := ".eml"

  predicate Eligible(files: Tree, ext: string, name: string) {
    name in files && Format.HasSuffix(name, ext)
  }

  function Matching(files: Tree, ext: string): Tree {
    map n | n in files && Format.HasSuffix(n, ext) :: files[n]
  }

  /** The walk ends at this file. */
  predicate Stops(files: Tree, ext: string, v: Visit) {
    Eligible(files, ext, v.name) && (v.fate.HeaderFailed? || v.fate.CutOff?)
  }

  /** The file ends up in the archive: an empty one needs no more than its header. */
  predicate Takes(files: Tree, ext: string, v: Visit) {
    Eligible(files, ext, v.name) && (v.fate.Fine? || (v.fate.CutOff? && files[v.name] == ""))
  }

  /** An announced content is missing: the archive cannot be unpacked any more. */
  predicate Spoils(files: Tree, ext: string, v: Visit) {
    Eligible(files, ext, v.name) && v.fate.CutOff? && files[v.name] != ""
  }

  ghost predicate Reached(files: Tree, ext: string, walk: seq<Visit>, i: int) {
    0 <= i < |walk| && forall j :: 0 <= j < i ==> !Stops(files, ext, walk[j])
  }

  /** What a walk leaves: nothing that can be unpacked, or exactly the files it took before it
      ended, each with its content. */
  ghost predicate Walked(files: Tree, ext: string, walk: seq<Visit>, archive: Option<Tree>) {
    && (archive.None? <==> exists i :: Reached(files, ext, walk, i) && Spoils(files, ext, walk[i]))
    && (archive.Some? ==>
          && (forall n :: n in archive.value <==>
                exists i :: Reached(files, ext, walk, i) && walk[i].name == n && Takes(files, ext, walk[i]))
          && forall n <- archive.value.Keys :: n in files && archive.value[n] == files[n])
  }

  /** Packs the files of a directory that have the extension, in the order of the walk. */
  method ArchiveDir(files: Tree, ext: string, walk: seq<Visit>) returns (archive: Option<Tree>)
    ensures Walked(files, ext, walk, archive)
  {
    hide Format.HasSuffix;
    var packed: Tree := map[];
    for i := 0 to |walk|
      invariant forall j :: 0 <= j < i ==> !Stops(files, ext, walk[j])
      invariant forall n :: n in packed <==> exists j :: 0 <= j < i && walk[j].name == n && Takes(files, ext, walk[j])
      invariant forall n <- packed.Keys :: n in files && packed[n] == files[n]
    {
      var v := walk[i];
      if v.name in files && Format.HasSuffix(v.name, ext) && v.fate != Skipped {
        assert Reached(files, ext, walk, i);
        if v.fate == HeaderFailed {
          StoppedAt(files, ext, walk, i);
          return Some(packed);
        }
        if v.fate == CutOff && files[v.name] != "" { return None; }
        packed := packed[v.name := files[v.name]];
        if v.fate == CutOff {
          StoppedAt(files, ext, walk, i);
          return Some(packed);
        }
      }
    }
    assert forall j :: Reached(files, ext, walk, j) <==> 0 <= j < |walk|;
    archive := Some(packed);
  }

  lemma StoppedAt(files: Tree, ext: string, walk: seq<Visit>, i: int)
    requires Reached(files, ext, walk, i) && Stops(files, ext, walk[i])
    ensures forall j :: Reached(files, ext, walk, j) <==> 0 <= j <= i
  {
  }

  /** Every file with the extension is taken before the walk ends. */
  ghost predicate Covers(files: Tree, ext: string, walk: seq<Visit>) {
    forall n :: Eligible(files, ext, n) ==>
      exists i :: Reached(files, ext, walk, i) && walk[i].name == n && Takes(files, ext, walk[i])
  }

  predicate NamedOnce(walk: seq<Visit>) {
    forall i, j :: 0 <= i < j < |walk| ==> walk[i].name != walk[j].name
  }

  lemma EverythingMatches(files: Tree)
    ensures Matching(files, "") == files
  {
  }

  /** A walk on which nothing goes wrong takes everything it comes to. */
  lemma SmoothWalkCovers(files: Tree, ext: string, walk: seq<Visit>)
    requires forall i :: 0 <= i < |walk| ==> walk[i].fate == Fine
    requires forall n <- files.Keys :: Format.HasSuffix(n, ext) ==> exists i :: 0 <= i < |walk| && walk[i].name == n
    ensures Covers(files, ext, walk)
  {
    hide Format.HasSuffix;
    assert forall i :: 0 <= i < |walk| ==> !Stops(files, ext, walk[i]);
    forall n | Eligible(files, ext, n)
      ensures exists i :: Reached(files, ext, walk, i) && walk[i].name == n && Takes(files, ext, walk[i])
    {
      var i :| 0 <= i < |walk| && walk[i].name == n;
      assert Reached(files, ext, walk, i);
    }
  }

  /** A file that cannot be read about is left out, and the walk goes on. */
  lemma SkippedLeftOut(files: Tree, ext: string, walk: seq<Visit>, archive: Option<Tree>)
    requires Walked(files, ext, walk, archive) && forall i :: 0 <= i < |walk| ==> walk[i].fate in {Fine, Skipped}
    ensures archive.Some? && forall n :: n in archive.value <==>
              n in files && Format.HasSuffix(n, ext) && exists i :: 0 <= i < |walk| && walk[i].name == n && walk[i].fate == Fine
    ensures forall n <- archive.value.Keys :: archive.value[n] == files[n]
  {
    hide Format.HasSuffix;
    assert forall i :: Reached(files, ext, walk, i) <==> 0 <= i < |walk|;
  }

  /** Exactly when the snapshot of a directory is the whole directory. */
  lemma WalkedWhole(files: Tree, ext: string, walk: seq<Visit>, archive: Option<Tree>)
    requires Walked(files, ext, walk, archive)
    requires NamedOnce(walk)
    ensures archive == Some(Matching(files, ext)) <==> Covers(files, ext, walk)
  {
    hide Format.HasSuffix;
    if Covers(files, ext, walk) {
      forall i | Reached(files, ext, walk, i) ensures !Spoils(files, ext, walk[i]) {
        assert Eligible(files, ext, walk[i].name) ==>
            exists j :: Reached(files, ext, walk, j) && walk[j].name == walk[i].name && Takes(files, ext, walk[j]);
      }
      forall n ensures n in archive.value <==> n in Matching(files, ext) {
        assert Eligible(files, ext, n) <==> n in Matching(files, ext);
      }
      assert archive.value == Matching(files, ext);
    }
    if archive == Some(Matching(files, ext)) {
      forall n | Eligible(files, ext, n)
        ensures exists i :: Reached(files, ext, walk, i) && walk[i].name == n && Takes(files, ext, walk[i])
      {
        assert n in archive.value;
      }
    }
  }

  // ---------------------------------------------------------------- the service

  class Service {
    const keyPaths: seq<string>
    const base: string -> string
    const encryption: bool
    const postgres: bool

    var live: LiveState
    var backups: map<string, Archive>
    var events: seq<Event>

    constructor (keyPaths: seq<string>, base: string -> string, encryption: bool, postgres: bool,
                 live: LiveState, backups: map<string, Archive>)
      ensures this.keyPaths == keyPaths && this.base == base && this.encryption == encryption && this.postgres == postgres
      ensures this.live == live && this.backups == backups && events == []
    {
      this.keyPaths, this.base, this.encryption, this.postgres := keyPaths, base, encryption, postgres;
      this.live, this.backups, events := live, backups, [];
    }

    /** The key paths an archive has something for. */
    predicate Archived(path: string, secrets: Tree) {
      path in keyPaths && path != "" && base(path) in secrets
    }

    /** The live state is the archive's: this is what a restore is for. */
    ghost predicate Restored(a: Archive, s: LiveState) {
      && a.database == Some(s.database)
      && a.mail.Some? && s.mail == a.mail && a.attachments.Some? && s.attachments == a.attachments
      && forall p :: Archived(p, a.secrets) ==> p in s.keys && s.keys[p] == a.secrets[base(p)]
    }

    /** No copy of the archive's files fell short without an error. */
    ghost predicate NothingTorn(a: Archive, f: ActivationFaults) {
      && (DATABASE_NAME in f.tornDatabase ==> a.database == Some(f.tornDatabase[DATABASE_NAME]))
      && Intact(Files(a.mail), f.tornMail) && Intact(Files(a.attachments), f.tornAttachments)
      && (forall p :: Archived(p, a.secrets) && base(p) in f.tornSecrets ==> f.tornSecrets[base(p)] == a.secrets[base(p)])
    }

    /** Stale SQLite sidecar files are gone unless removing them failed. */
    ghost predicate SidecarsGone(after: set<string>, f: ActivationFaults) {
      !postgres ==> after * SIDECARS <= f.sidecarsKept
    }

    static const SIDECARS: set<string> := {"-wal", "-shm"}

    lemma NoStaleSidecars(after: set<string>, f: ActivationFaults)
      requires SidecarsGone(after, f) && !postgres
      ensures forall side <- {"-wal", "-shm"} :: side in after ==> side in f.sidecarsKept
    {
    }

    /** One of the first so many key paths is this one, and the archive has something for it. */
    predicate Replaced(path: string, secrets: Tree, replaced: nat) {
      exists i :: 0 <= i < |keyPaths| && i < replaced && keyPaths[i] == path && Archived(path, secrets)
    }

    /** Exactly the replaced key files have changed, to what the archive has for them. */
    ghost predicate KeysAfter(before: Tree, after: Tree, secrets: Tree, replaced: nat) {
      forall p :: if Replaced(p, secrets, replaced) then p in after && after[p] == secrets[base(p)]
                  else (p in before <==> p in after) && (p in before ==> before[p] == after[p])
    }

    /** The activation comes to the keys. */
    predicate ReachesKeys(a: Archive, f: ActivationFaults) {
      && f.manifest && a.product == Format.PRODUCT_NAME && a.version == Format.FORMAT_VERSION
      && a.database.Some? && f.database.DatabaseOk?
      && a.mail.Some? && f.mail.DirOk? && a.attachments.Some? && f.attachments.DirOk?
    }

    /** How many key paths an activation comes to. */
    function KeysTouched(a: Archive, f: ActivationFaults): nat {
      if ReachesKeys(a, f) then f.keysReplaced else 0
    }

    /** Nothing stops the activation of a staged archive. */
    predicate Activates(a: Archive, f: ActivationFaults) {
      && ReachesKeys(a, f) && f.permissions
      && (forall i :: 0 <= i < |keyPaths| && Archived(keyPaths[i], a.secrets) ==> i < f.keysReplaced)
    }

    /** The database once an activation has come to it. */
    function DatabaseAfter(before: Content, a: Archive, f: ActivationFaults): Content {
      if !f.manifest || a.product != Format.PRODUCT_NAME || a.version != Format.FORMAT_VERSION || a.database.None? then before
      else match f.database
        case DatabaseOk => a.database.value
        case DatabaseUntouched => before
        case DatabasePartial(left) => if postgres then left else before
    }

    predicate ComesUp(a: Archive, f: ActivationFaults) {
      Activates(a, f) && f.restart && f.health
    }

    /** Unpacks an archive into a staging directory of its own. */
    method StageBackupArchive(id: string, f: ActivationFaults) returns (staged: Option<Archive>)
      ensures staged == if f.staged && id in backups then Some(StagedCopy(backups[id], f)) else None
    {
      if !f.staged || id !in backups { return None; }
      staged := Some(StagedCopy(backups[id], f));
    }

    function StagedCopy(a: Archive, f: ActivationFaults): Archive {
      a.(database := if a.database.Some? && DATABASE_NAME in f.tornDatabase then Some(f.tornDatabase[DATABASE_NAME])
                     else a.database,
         secrets := Arrived(a.secrets, f.tornSecrets))
    }

    /** Unpacks a tree beside the target directory and swaps the two. */
    method ActivateArchiveDir(tree: Option<Tree>, torn: Tree, fault: DirFault, dir: Option<Tree>)
      returns (ok: bool, now: Option<Tree>)
      ensures ok <==> tree.Some? && fault.DirOk?
      ensures ok ==> now == Some(Arrived(tree.value, torn))
      ensures !ok ==> now == dir || now == None
    {
      if tree.None? || fault.DirBeforeSwap? { return false, dir; }
      var tmp := Arrived(tree.value, torn);
      var previous := dir;
      if fault.DirInSwap? {
        return false, if fault.movedBack then previous else None;
      }
      return true, Some(tmp);
    }

    /** Puts back the key files the archive carries, path by path. */
    method RestoreKeyMaterial(secrets: Tree, replaced: nat) returns (ok: bool)
      modifies this`live
      ensures live == old(live).(keys := live.keys) && KeysAfter(old(live).keys, live.keys, secrets, replaced)
      ensures ok <==> forall i :: 0 <= i < |keyPaths| && Archived(keyPaths[i], secrets) ==> i < replaced
    {
      for i := 0 to |keyPaths|
        invariant live == old(live).(keys := live.keys)
        invariant KeysAfter(old(live).keys, live.keys, secrets, if i < replaced then i else replaced)
        invariant forall j :: 0 <= j < i && Archived(keyPaths[j], secrets) ==> j < replaced
      {
        var p := keyPaths[i];
        ghost var was := live.keys;
        if Archived(p, secrets) {
          if i >= replaced { return false; }
          live := live.(keys := live.keys[p := secrets[base(p)]]);
        }
        if i < replaced {
          OneMoreReplaced(secrets, i);
        }
      }
      ReplacedByAll(secrets, replaced);
      ok := true;
    }

    lemma OneMoreReplaced(secrets: Tree, n: nat)
      requires n < |keyPaths|
      ensures forall p :: Replaced(p, secrets, n + 1) <==> Replaced(p, secrets, n) || (p == keyPaths[n] && Archived(p, secrets))
    {
      forall p | Replaced(p, secrets, n) || (p == keyPaths[n] && Archived(p, secrets)) ensures Replaced(p, secrets, n + 1) {
        var i :| 0 <= i < |keyPaths| && i < n + 1 && keyPaths[i] == p && Archived(p, secrets);
      }
    }

    lemma ReplacedByAll(secrets: Tree, replaced: nat)
      ensures forall p :: Replaced(p, secrets, replaced) <==>
                Replaced(p, secrets, if |keyPaths| < replaced then |keyPaths| else replaced)
    {
    }

    /** When every archived key path is replaced, each has the archive's content. */
    lemma AllReplaced(before: Tree, after: Tree, secrets: Tree, replaced: nat)
      requires KeysAfter(before, after, secrets, replaced)
      requires forall i :: 0 <= i < |keyPaths| && Archived(keyPaths[i], secrets) ==> i < replaced
      ensures forall p :: Archived(p, secrets) ==> p in after && after[p] == secrets[base(p)]
    {
      forall p | Archived(p, secrets) ensures Replaced(p, secrets, replaced) {
        var i :| 0 <= i < |keyPaths| && keyPaths[i] == p;
        assert Archived(keyPaths[i], secrets);
      }
    }

    /** Replaces database, mail store, attachments and keys, in this order. */
    method ActivateStagedRestore(staged: Archive, f: ActivationFaults) returns (ok: bool)
      modifies this`live
      ensures ok <==> Activates(staged, f)
      ensures live.database == DatabaseAfter(old(live).database, staged, f)
      ensures ok ==> staged.database == Some(live.database)
      ensures ok ==> SidecarsGone(live.sidecars, f)
      ensures ok ==> staged.mail.Some? && live.mail == Some(Arrived(staged.mail.value, f.tornMail))
      ensures ok ==> staged.attachments.Some? && live.attachments == Some(Arrived(staged.attachments.value, f.tornAttachments))
      ensures KeysAfter(old(live).keys, live.keys, staged.secrets, KeysTouched(staged, f))
    {
      if !f.manifest || staged.product != Format.PRODUCT_NAME || staged.version != Format.FORMAT_VERSION || staged.database.None? {
        return false;
      }
      if !f.database.DatabaseOk? {
        if postgres && f.database.DatabasePartial? {
          live := live.(database := f.database.left);
        }
        return false;
      }
      live := live.(database := staged.database.value);
      if !postgres {
        live := live.(sidecars := live.sidecars - (SIDECARS - f.sidecarsKept));
      }
      var mail, attachments;
      ok, mail := ActivateArchiveDir(staged.mail, f.tornMail, f.mail, live.mail);
      live := live.(mail := mail);
      if !ok { return; }
      ok, attachments := ActivateArchiveDir(staged.attachments, f.tornAttachments, f.attachments, live.attachments);
      live := live.(attachments := attachments);
      if !ok { return; }
      ok := RestoreKeyMaterial(staged.secrets, f.keysReplaced);
      ok := ok && f.permissions;
    }

    /** Activates a staged archive and says so. */
    method Activate(id: string, staged: Archive, f: ActivationFaults) returns (ok: bool)
      requires id in backups && staged == StagedCopy(backups[id], f)
      modifies this`live, this`events
      ensures events == old(events) + [Activation(id, ok)]
      ensures ok <==> Activates(backups[id], f)
      ensures ok ==> (Restored(backups[id], live) <==> NothingTorn(backups[id], f))
      ensures ok ==> SidecarsGone(live.sidecars, f)
      ensures KeysAfter(old(live).keys, live.keys, StagedCopy(backups[id], f).secrets, KeysTouched(backups[id], f))
    {
      ghost var a := backups[id];
      ok := ActivateStagedRestore(staged, f);
      events := events + [Activation(id, ok)];
      if ok {
        AllReplaced(old(live).keys, live.keys, staged.secrets, f.keysReplaced);
        ArrivedWhole(a.mail.value, f.tornMail);
        ArrivedWhole(a.attachments.value, f.tornAttachments);
      }
    }

    /** A bounded step: a timeout counts as a failure. */
    method RunBoundedStep(e: Event, ok: bool) returns (done: bool)
      modifies this`events
      ensures done == ok && events == old(events) + [e]
    {
      events := events + [e];
      done := ok;
    }

    /** Activation, restart and health check, up to the first failure; a restore and its
        rollback both run this sequence. */
    method BringUp(id: string, staged: Archive, f: ActivationFaults) returns (ok: bool)
      requires id in backups && staged == StagedCopy(backups[id], f)
      modifies this`live, this`events
      ensures ok <==> ComesUp(backups[id], f)
      ensures old(events) <= events
      ensures if ok then events[|old(events)|..] == Completed(id) else Broken(id, events[|old(events)|..])
      ensures ok ==> (Restored(backups[id], live) <==> NothingTorn(backups[id], f))
      ensures ok ==> SidecarsGone(live.sidecars, f)
      ensures KeysAfter(old(live).keys, live.keys, StagedCopy(backups[id], f).secrets, KeysTouched(backups[id], f))
    {
      hide Restored, NothingTorn, SidecarsGone, KeysAfter, StagedCopy;
      ghost var n := |events|;
      ok := Activate(id, staged, f);
      assert events[n..] == [Activation(id, ok)];
      if !ok { return; }
      ok := RunBoundedStep(Restart(f.restart), f.restart);
      assert events[n..] == [Activation(id, true), Restart(f.restart)];
      if !ok { return; }
      ok := RunBoundedStep(Health(f.health), f.health);
      assert events[n..] == [Activation(id, true), Restart(true), Health(f.health)];
    }

    /** Puts the safety backup back. Rolled back is only reported once the safety backup is
        active and the service has been restarted and found healthy. */
    method RollbackRestore(sourceId: string, safetyId: string, f: ActivationFaults) returns (r: StageResult)
      requires safetyId in backups
      modifies this`live, this`events
      ensures r == StageResult(r.status, r.status == RolledBack, sourceId, safetyId) && r.status != Activated
      ensures r.rolledBack <==> f.staged && ComesUp(backups[safetyId], f)
      ensures old(events) <= events && RollbackEvents(safetyId, r.rolledBack, events[|old(events)|..])
      ensures r.rolledBack ==> (Restored(backups[safetyId], live) <==> NothingTorn(backups[safetyId], f))
      ensures r.rolledBack ==> SidecarsGone(live.sidecars, f)
      ensures r.rolledBack ==>
                KeysAfter(old(live).keys, live.keys, StagedCopy(backups[safetyId], f).secrets, KeysTouched(backups[safetyId], f))
      ensures keyPaths == [] ==> live.keys == old(live).keys
    {
      hide Restored, NothingTorn, Completed, Broken, ComesUp, StagedCopy;
      var failed := StageResult(Failed, false, sourceId, safetyId);
      ghost var n := |events|;
      events := events + [RollbackStarted];
      var staged := StageBackupArchive(safetyId, f);
      if staged.None? { return failed; }
      var ok := BringUp(safetyId, staged.value, f);
      assert events[n..][1..] == events[n + 1..];
      r := if ok then StageResult(RolledBack, true, sourceId, safetyId) else failed;
    }

    /** The registered key files, staged under their base names; the last one wins a name. */
    ghost predicate KeysStaged(keys: Tree, secrets: Tree, n: nat)
      requires n <= |keyPaths|
    {
      && (forall b :: b in secrets <==> Named(b, n))
      && (forall i :: 0 <= i < n && LastOfItsName(i, n) ==>
            keyPaths[i] in keys && base(keyPaths[i]) in secrets && secrets[base(keyPaths[i])] == keys[keyPaths[i]])
    }

    /** One of the first n key paths has this base name. */
    ghost predicate Named(b: string, n: nat)
      requires n <= |keyPaths|
    {
      exists i :: 0 <= i < n && keyPaths[i] != "" && base(keyPaths[i]) == b
    }

    ghost predicate LastOfItsName(i: nat, n: nat)
      requires i < n <= |keyPaths|
    {
      keyPaths[i] != "" && forall j :: i < j < n && keyPaths[j] != "" ==> base(keyPaths[j]) != base(keyPaths[i])
    }

    /** What a safety backup holds of the live state: the database, the messages and the
        attachments as far as the walks came, and the keys when the archive is encrypted. */
    ghost predicate IsSnapshot(s: LiveState, f: RestoreFaults, a: Archive) {
      && a.product == Format.PRODUCT_NAME && a.version == Format.FORMAT_VERSION
      && a.database == (if f.databaseDumped then Some(s.database) else None)
      && Walked(Files(s.mail), MESSAGES, f.mailWalk, a.mail)
      && Walked(Files(s.attachments), "", f.attachmentWalk, a.attachments)
      && if encryption then KeysStaged(s.keys, a.secrets, |keyPaths|) else a.secrets == map[]
    }

    predicate SnapshotTaken(s: LiveState, f: RestoreFaults) {
      f.safetyOk && (encryption ==> forall p <- keyPaths :: p != "" ==> p in s.keys)
    }

    lemma NothingStaged(keys: Tree)
      ensures KeysStaged(keys, map[], 0)
    {
    }

    lemma OneMoreNamed(b: string, n: nat)
      requires n < |keyPaths|
      ensures Named(b, n + 1) <==> Named(b, n) || (keyPaths[n] != "" && base(keyPaths[n]) == b)
    {
    }

    lemma OneMoreStaged(keys: Tree, was: Tree, secrets: Tree, i: nat)
      requires i < |keyPaths| && KeysStaged(keys, was, i)
      requires if keyPaths[i] == "" then secrets == was
               else keyPaths[i] in keys && secrets == was[base(keyPaths[i]) := keys[keyPaths[i]]]
      ensures KeysStaged(keys, secrets, i + 1)
    {
      hide Named;
      forall b ensures b in secrets <==> Named(b, i + 1) {
        OneMoreNamed(b, i);
      }
      forall j | 0 <= j < i && LastOfItsName(j, i + 1)
        ensures LastOfItsName(j, i) && (keyPaths[i] != "" ==> base(keyPaths[j]) != base(keyPaths[i]))
      {
      }
    }

    /** A later key file has the same base name. */
    predicate NamedAgain(i: nat)
      requires i < |keyPaths|
    {
      exists j :: i < j < |keyPaths| && keyPaths[j] != "" && base(keyPaths[j]) == base(keyPaths[i])
    }

    lemma LastOneTaken(keys: Tree, secrets: Tree)
      requires KeysStaged(keys, secrets, |keyPaths|) && forall j :: 0 <= j < |keyPaths| && keyPaths[j] != "" ==> keyPaths[j] in keys
      ensures forall i :: 0 <= i < |keyPaths| && keyPaths[i] != "" && !NamedAgain(i) ==>
                base(keyPaths[i]) in secrets && secrets[base(keyPaths[i])] == keys[keyPaths[i]]
    {
      hide Named;
      forall i | 0 <= i < |keyPaths| && keyPaths[i] != "" && !NamedAgain(i)
        ensures base(keyPaths[i]) in secrets && secrets[base(keyPaths[i])] == keys[keyPaths[i]]
      {
        assert LastOfItsName(i, |keyPaths|);
      }
    }

    /** Copies every registered key file into the backup directory. */
    method StageKeys() returns (staged: Option<Tree>)
      ensures staged.Some? <==> forall p <- keyPaths :: p != "" ==> p in live.keys
      ensures staged.Some? ==> KeysStaged(live.keys, staged.value, |keyPaths|)
      // Of key files with one base name the last one is taken.
      ensures staged.Some? ==>
                forall i :: 0 <= i < |keyPaths| && keyPaths[i] != "" && !NamedAgain(i) ==>
                  base(keyPaths[i]) in staged.value && staged.value[base(keyPaths[i])] == live.keys[keyPaths[i]]
    {
      hide KeysStaged;
      NothingStaged(live.keys);
      var secrets: Tree := map[];
      for i := 0 to |keyPaths|
        invariant KeysStaged(live.keys, secrets, i)
        invariant forall j :: 0 <= j < i && keyPaths[j] != "" ==> keyPaths[j] in live.keys
      {
        var p := keyPaths[i];
        ghost var was := secrets;
        if p != "" {
          if p !in live.keys { return None; }
          secrets := secrets[base(p) := live.keys[p]];
        }
        OneMoreStaged(live.keys, was, secrets, i);
      }
      staged := Some(secrets);
      LastOneTaken(live.keys, secrets);
    }

    method CreateSafetyBackup(f: RestoreFaults) returns (ok: bool)
      requires f.safetyId !in backups
      modifies this`backups
      ensures ok <==> SnapshotTaken(live, f)
      ensures ok ==> f.safetyId in backups && backups == old(backups)[f.safetyId := backups[f.safetyId]]
                     && IsSnapshot(live, f, backups[f.safetyId])
      ensures !ok ==> backups == old(backups)
    {
      hide KeysStaged, Walked;
      if !f.safetyOk { return false; }
      var mail := ArchiveDir(Files(live.mail), MESSAGES, f.mailWalk);
      var attachments := ArchiveDir(Files(live.attachments), "", f.attachmentWalk);
      var secrets: Tree := map[];
      if encryption {
        var staged := StageKeys();
        if staged.None? { return false; }
        secrets := staged.value;
      }
      var database := if f.databaseDumped then Some(live.database) else None;
      backups := backups[f.safetyId := Archive(Format.PRODUCT_NAME, Format.FORMAT_VERSION, database, mail, attachments, secrets)];
      ok := true;
    }

    // -------------------------------------------------------------- what a rollback brings back

    /** Registered key files that share a base name have the same content. */
    ghost predicate SameNamesAgree(keys: Tree) {
      forall p, q :: p in keyPaths && q in keyPaths && p != "" && q != "" && base(p) == base(q) && p in keys && q in keys ==>
        keys[p] == keys[q]
    }

    lemma {:induction false} LastAfter(i: nat, n: nat) returns (k: nat)
      requires i < n <= |keyPaths| && keyPaths[i] != ""
      ensures i <= k < n && base(keyPaths[k]) == base(keyPaths[i]) && LastOfItsName(k, n)
      decreases n - i
    {
      if j :| i < j < n && keyPaths[j] != "" && base(keyPaths[j]) == base(keyPaths[i]) {
        k := LastAfter(j, n);
      } else {
        k := i;
      }
    }

    /** Exactly when every staged key has its own content. */
    lemma StagedKeyValues(keys: Tree, secrets: Tree)
      requires KeysStaged(keys, secrets, |keyPaths|) && forall p <- keyPaths :: p != "" ==> p in keys
      ensures forall p <- keyPaths :: p != "" ==> base(p) in secrets
      ensures (forall p <- keyPaths :: p != "" ==> secrets[base(p)] == keys[p]) <==> SameNamesAgree(keys)
    {
      forall p | p in keyPaths && p != ""
        ensures base(p) in secrets && exists q :: q in keyPaths && q != "" && base(q) == base(p) && secrets[base(p)] == keys[q]
      {
        var i :| 0 <= i < |keyPaths| && keyPaths[i] == p;
        var k := LastAfter(i, |keyPaths|);
        assert keyPaths[k] in keyPaths;
      }
    }

    /** The live state from before the restore is back, up to files of the mail store that are
        not messages. */
    ghost predicate Undone(before: LiveState, after: LiveState) {
      && after.database == before.database
      && Files(after.mail) == Matching(Files(before.mail), MESSAGES)
      && Files(after.attachments) == Files(before.attachments)
      && KeysBack(before.keys, after.keys)
    }

    ghost predicate KeysBack(before: Tree, after: Tree) {
      forall p <- keyPaths :: p != "" ==> (p in after <==> p in before) && (p in after ==> after[p] == before[p])
    }

    /** The safety backup holds every message and every attachment. */
    ghost predicate WholeSnapshot(s: LiveState, a: Archive) {
      a.mail == Some(Matching(Files(s.mail), MESSAGES)) && a.attachments == Some(Files(s.attachments))
    }

    /** The keys survive a restore that is rolled back: an encrypted safety backup carries them,
        another one does not, so then the broken activation must have left them as they were. */
    ghost predicate KeysComeBack(keys: Tree, a: Archive, f: ActivationFaults) {
      if encryption then SameNamesAgree(keys)
      else
        forall p <- keyPaths :: p != "" && Replaced(p, StagedCopy(a, f).secrets, KeysTouched(a, f)) ==>
          p in keys && keys[p] == StagedCopy(a, f).secrets[base(p)]
    }

    lemma KeysBackExactly(before: Tree, mid: Tree, after: Tree, a: Archive, f: ActivationFaults, safety: Archive,
                          rollback: ActivationFaults, replaced: nat)
      requires KeysAfter(before, mid, StagedCopy(a, f).secrets, KeysTouched(a, f))
      requires KeysAfter(mid, after, StagedCopy(safety, rollback).secrets, replaced)
      requires encryption ==> KeysStaged(before, safety.secrets, |keyPaths|) && forall p <- keyPaths :: p != "" ==> p in before
      requires !encryption ==> safety.secrets == map[]
      requires forall p :: Archived(p, safety.secrets) ==> p in after && after[p] == safety.secrets[base(p)]
      ensures KeysBack(before, after) <==> KeysComeBack(before, a, f)
    {
      if encryption {
        StagedKeyValues(before, safety.secrets);
        forall p | p in keyPaths && p != "" ensures p in after && after[p] == safety.secrets[base(p)] {
          assert Archived(p, safety.secrets);
        }
      } else {
        forall p ensures !Replaced(p, StagedCopy(safety, rollback).secrets, replaced) {
        }
        forall p ensures (p in mid <==> p in after) && (p in mid ==> mid[p] == after[p]) {
        }
      }
    }

    /** Exactly what a completed rollback brings back. */
    lemma RollbackUndoes(before: LiveState, mid: LiveState, after: LiveState, a: Archive, f: RestoreFaults, safety: Archive)
      requires SnapshotTaken(before, f) && IsSnapshot(before, f, safety) && Restored(safety, after)
      requires KeysAfter(before.keys, mid.keys, StagedCopy(a, f.main).secrets, KeysTouched(a, f.main))
      requires KeysAfter(mid.keys, after.keys, StagedCopy(safety, f.rollback).secrets, KeysTouched(safety, f.rollback))
      ensures Undone(before, after) <==> WholeSnapshot(before, safety) && KeysComeBack(before.keys, a, f.main)
    {
      hide KeysAfter, KeysStaged, KeysBack, KeysComeBack, Walked, StagedCopy, Format.HasSuffix;
      KeysBackExactly(before.keys, mid.keys, after.keys, a, f.main, safety, f.rollback, KeysTouched(safety, f.rollback));
    }

    /** A restore reaches the activation of the backup it was asked for. */
    predicate ReachesActivation(id: string, archives: map<string, Archive>, s: LiveState, f: RestoreFaults) {
      && f.maintenance && f.restartConfigured && f.healthConfigured && f.verdict.Valid?
      && id in archives && SnapshotTaken(s, f) && f.main.staged
    }

    /** Exactly what it takes to be activated: a restore that is set up, a valid archive of this
        product with all of its parts, a safety backup, and no failing step up to the health check. */
    lemma ActivatedExactly(id: string, archives: map<string, Archive>, s: LiveState, f: RestoreFaults)
      ensures ReachesActivation(id, archives, s, f) && ComesUp(archives[id], f.main) <==>
                && f.maintenance && f.restartConfigured && f.healthConfigured && f.verdict == Valid && id in archives
                && f.safetyOk && (encryption ==> forall p <- keyPaths :: p != "" ==> p in s.keys)
                && f.main.staged && f.main.manifest && f.main.database == DatabaseOk
                && f.main.mail == DirOk && f.main.attachments == DirOk && f.main.permissions && f.main.restart && f.main.health
                && var a := archives[id];
                   && a.product == "Orvix Enterprise Mail" && a.version == 1
                   && a.database.Some? && a.mail.Some? && a.attachments.Some?
                   && forall i :: 0 <= i < |keyPaths| && keyPaths[i] != "" && base(keyPaths[i]) in a.secrets ==>
                        i < f.main.keysReplaced
    {
    }

    /** Walks that take everything make the snapshot whole. */
    lemma CoveredIsWhole(s: LiveState, f: RestoreFaults, a: Archive)
      requires IsSnapshot(s, f, a)
      requires NamedOnce(f.mailWalk) && Covers(Files(s.mail), MESSAGES, f.mailWalk)
      requires NamedOnce(f.attachmentWalk) && Covers(Files(s.attachments), "", f.attachmentWalk)
      ensures WholeSnapshot(s, a)
      ensures a.mail.Some? && forall n :: n in a.mail.value <==> n in Files(s.mail) && Format.HasSuffix(n, ".eml")
    {
      hide Walked, Covers, KeysStaged, Format.HasSuffix;
      WalkedWhole(Files(s.mail), MESSAGES, f.mailWalk, a.mail);
      WalkedWhole(Files(s.attachments), "", f.attachmentWalk, a.attachments);
      EverythingMatches(Files(s.attachments));
    }

    /** The whole lifecycle. Whatever fails, the reported status says what the live state is. */
    method RestoreBackup(id: string, f: RestoreFaults) returns (stage: Option<StageResult>, failed: bool)
      requires f.safetyId !in backups
      modifies this
      ensures old(events) <= events && RestoreEvents(id, f.safetyId, stage, failed, events[|old(events)|..])
      ensures forall b <- old(backups).Keys :: b in backups && backups[b] == old(backups)[b]
      // Until an activation has begun, nothing live changes.
      ensures events == old(events) ==> live == old(live)
      // Whatever has failed before any state is created changes nothing.
      ensures !f.maintenance || !f.restartConfigured || !f.healthConfigured || !f.verdict.Valid? ==>
                && events == old(events) && live == old(live) && backups == old(backups)
                && !Reports(stage, Activated) && !Reports(stage, RolledBack)
      ensures f.maintenance && f.restartConfigured && f.healthConfigured && f.verdict.Invalid? ==> Reports(stage, Failed) && !failed
      // Activated: the backup is live, exactly unless a copy silently fell short.
      ensures Reports(stage, Activated) <==>
                ReachesActivation(id, old(backups), old(live), f) && ComesUp(old(backups)[id], f.main)
      ensures Reports(stage, Activated) ==> (Restored(old(backups)[id], live) <==> NothingTorn(old(backups)[id], f.main))
      ensures Reports(stage, Activated) ==> SidecarsGone(live.sidecars, f.main)
      ensures Reports(stage, Activated) && !postgres ==>
                forall side <- {"-wal", "-shm"} :: side in live.sidecars ==> side in f.main.sidecarsKept
      // Rolled back: the safety backup is live, over whatever the broken activation left.
      ensures ReachesActivation(id, old(backups), old(live), f) ==>
                f.safetyId in backups && IsSnapshot(old(live), f, backups[f.safetyId])
      ensures Reports(stage, RolledBack) <==>
                && ReachesActivation(id, old(backups), old(live), f) && !ComesUp(old(backups)[id], f.main)
                && f.rollback.staged && f.safetyId in backups && ComesUp(backups[f.safetyId], f.rollback)
      ensures Reports(stage, RolledBack) ==>
                (Restored(backups[f.safetyId], live) <==> NothingTorn(backups[f.safetyId], f.rollback))
      ensures Reports(stage, RolledBack) ==> SidecarsGone(live.sidecars, f.rollback)
      // And the restore is undone, exactly if nothing was lost on the way.
      ensures Reports(stage, RolledBack) && NothingTorn(backups[f.safetyId], f.rollback) ==>
                (Undone(old(live), live) <==>
                 WholeSnapshot(old(live), backups[f.safetyId]) && KeysComeBack(old(live).keys, old(backups)[id], f.main))
      ensures keyPaths == [] ==> live.keys == old(live).keys
    {
      hide Restored, NothingTorn, SidecarsGone, Undone, IsSnapshot, WholeSnapshot, KeysComeBack, RollbackEvents, ComesUp,
        SnapshotTaken, StagedCopy, KeysAfter, KeysTouched;
      stage, failed := None, true;
      ghost var before, n := live, |events|;
      if !f.maintenance || !f.restartConfigured || !f.healthConfigured || f.verdict.ValidationError? { return; }
      if f.verdict.Invalid? || id !in backups {
        return Some(StageResult(Failed, false, "", "")), false;
      }
      var ok := CreateSafetyBackup(f);
      if !ok { return; }
      var staged := StageBackupArchive(id, f.main);
      if staged.None? { return; }
      ok := BringUp(id, staged.value, f.main);
      NoKeyPaths(before.keys, live.keys, StagedCopy(backups[id], f.main).secrets, KeysTouched(backups[id], f.main));
      if ok {
        if !postgres { NoStaleSidecars(live.sidecars, f.main); }
        return Some(StageResult(Activated, false, id, f.safetyId)), false;
      }
      ghost var broken, mid := events[n..], live;
      var r := RollbackRestore(id, f.safetyId, f.rollback);
      assert events[n..][..|broken|] == broken && events[n..][|broken|..] == events[n + |broken|..];
      stage := Some(r);
      if r.rolledBack && NothingTorn(backups[f.safetyId], f.rollback) {
        RollbackUndoes(before, mid, live, backups[id], f, backups[f.safetyId]);
      }
    }

    // -------------------------------------------------------------- a crash in between

    /** A restore that a crash ends during its activation: the safety backup has been taken, and
        the activation leaves what it leaves when it is stopped at that point. */
    method CrashInActivation(id: string, f: RestoreFaults)
      requires f.safetyId !in backups && ReachesActivation(id, backups, live, f)
      modifies this`live, this`backups
      ensures f.safetyId in backups && backups == old(backups)[f.safetyId := backups[f.safetyId]]
      ensures IsSnapshot(old(live), f, backups[f.safetyId])
      ensures live.database == DatabaseAfter(old(live).database, StagedCopy(old(backups)[id], f.main), f.main)
    {
      hide IsSnapshot, DatabaseAfter, StagedCopy;
      var ok := CreateSafetyBackup(f);
      var staged := StageBackupArchive(id, f.main);
      ok := ActivateStagedRestore(staged.value, f.main);
    }

    /** Nothing of what a rollback brings back has changed. */
    ghost predicate Unchanged(before: LiveState, mid: LiveState) {
      && mid.database == before.database
      && Matching(Files(mid.mail), MESSAGES) == Matching(Files(before.mail), MESSAGES)
      && Files(mid.attachments) == Files(before.attachments)
      && KeysBack(before.keys, mid.keys)
    }

    /** What brings one state back brings another one back, exactly if they do not differ. */
    lemma BringsBackBoth(before: LiveState, mid: LiveState, after: LiveState)
      requires Undone(mid, after)
      ensures Undone(before, after) <==> Unchanged(before, mid)
    {
      hide Matching;
    }

    /** A job that is taken up again after a crash: its safety backup is one of the state that
        the crash has left, so rolled back then means back to that state. It is the state from
        before the job exactly if the crash had left it unchanged; the safety backup of the first
        attempt still holds it. */
    method RestoreAfterCrash(id: string, crash: RestoreFaults, f: RestoreFaults)
      returns (stage: Option<StageResult>, failed: bool, ghost mid: LiveState)
      requires crash.safetyId !in backups && f.safetyId !in backups && crash.safetyId != f.safetyId
      requires ReachesActivation(id, backups, live, crash)
      modifies this
      ensures crash.safetyId in backups && IsSnapshot(old(live), crash, backups[crash.safetyId])
      ensures mid.database == DatabaseAfter(old(live).database, StagedCopy(old(backups)[id], crash.main), crash.main)
      ensures Reports(stage, Activated) ==> (Restored(old(backups)[id], live) <==> NothingTorn(old(backups)[id], f.main))
      ensures Reports(stage, RolledBack) <==>
                && ReachesActivation(id, old(backups), mid, f) && !ComesUp(old(backups)[id], f.main)
                && f.rollback.staged && f.safetyId in backups && ComesUp(backups[f.safetyId], f.rollback)
      ensures ReachesActivation(id, old(backups), mid, f) ==>
                f.safetyId in backups && IsSnapshot(mid, f, backups[f.safetyId])
      ensures Reports(stage, RolledBack) ==>
                (Restored(backups[f.safetyId], live) <==> NothingTorn(backups[f.safetyId], f.rollback))
      ensures Reports(stage, RolledBack) && NothingTorn(backups[f.safetyId], f.rollback)
              && WholeSnapshot(mid, backups[f.safetyId]) && KeysComeBack(mid.keys, old(backups)[id], f.main) ==>
                Undone(mid, live) && (Undone(old(live), live) <==> Unchanged(old(live), mid))
    {
      hide Restored, NothingTorn, SidecarsGone, Undone, IsSnapshot, WholeSnapshot, KeysComeBack, Unchanged, RestoreEvents,
        ComesUp, SnapshotTaken, DatabaseAfter, StagedCopy;
      ghost var before := live;
      CrashInActivation(id, crash);
      mid := live;
      assert backups[id] == old(backups)[id];
      MayBeRetried(id, old(backups), backups, mid, f);
      stage, failed := RestoreBackup(id, f);
      if Undone(mid, live) {
        BringsBackBoth(before, mid, live);
      }
    }

    lemma MayBeRetried(id: string, before: map<string, Archive>, after: map<string, Archive>, s: LiveState, f: RestoreFaults)
      requires id in before && id in after
      ensures ReachesActivation(id, before, s, f) <==> ReachesActivation(id, after, s, f)
    {
    }

    lemma NoKeyPaths(before: Tree, after: Tree, secrets: Tree, replaced: nat)
      requires KeysAfter(before, after, secrets, replaced)
      ensures keyPaths == [] ==> after == before
    {
    }
  }

  predicate Reports(stage: Option<StageResult>, status: RestoreStatus) {
    stage.Some? && stage.value.status == status
  }

  /** A copy that falls short goes unnoticed: a restore in which nothing else goes wrong
      reports success over a live state that is not the backup's. */
  method ShortCopyUnnoticed() returns (s: Service, backup: Archive, stage: Option<StageResult>)
    ensures Reports(stage, Activated) && !s.Restored(backup, s.live)
  {
    backup := Archive(Format.PRODUCT_NAME, Format.FORMAT_VERSION, Some("db"), Some(map["1.eml" := "hello"]), Some(map[]), map[]);
    var smooth := ActivationFaults(true, true, map[], map[], DatabaseOk, {}, DirOk, map[], DirOk, map[], 0, true, true, true);
    var torn := smooth.(tornMail := map["1.eml" := "he"]);
    var f := RestoreFaults(true, true, true, Valid, true, "safety", true, [], [], torn, smooth);
    s := new Service([], p => p, false, false, LiveState("", {}, None, None, map[]), map["b" := backup]);
    assert |"safety"| != |"b"|;
    var failed;
    stage, failed := s.RestoreBackup("b", f);
    assert torn.tornMail["1.eml"] != backup.mail.value["1.eml"] by {
      assert |"he"| != |"hello"|;
    }
  }

  /** Without encryption the safety backup carries no keys: a key that a broken activation has
      overwritten stays overwritten although the restore is reported as rolled back. */
  method KeyNotBroughtBack() returns (s: Service, before: LiveState, stage: Option<StageResult>)
    ensures Reports(stage, RolledBack) && !s.Undone(before, s.live)
  {
    var backup := Archive(Format.PRODUCT_NAME, Format.FORMAT_VERSION, Some("db"), Some(map[]), Some(map[]), map["k" := "new"]);
    var smooth := ActivationFaults(true, true, map[], map[], DatabaseOk, {}, DirOk, map[], DirOk, map[], 1, true, true, true);
    var broken := smooth.(restart := false);
    var f := RestoreFaults(true, true, true, Valid, true, "safety", true, [], [], broken, smooth);
    before := LiveState("", {}, None, None, map["k" := "old"]);
    s := new Service(["k"], p => p, false, false, before, map["b" := backup]);
    assert |"safety"| != |"b"|;
    var failed;
    stage, failed := s.RestoreBackup("b", f);
    assert s.keyPaths[0] == "k" && s.Archived("k", s.StagedCopy(backup, broken).secrets);
    assert |"new"| == |"old"| && "new"[0] != "old"[0];
    assert !s.KeysComeBack(before.keys, backup, broken);
  }

  /** After a crash between the database and the mail store, a second attempt that is rolled
      back keeps the database of the backup. */
  method CrashKeepsHalf() returns (s: Service, before: LiveState, stage: Option<StageResult>)
    ensures Reports(stage, RolledBack) && s.live.database != before.database
  {
    var backup := Archive(Format.PRODUCT_NAME, Format.FORMAT_VERSION, Some("new"), Some(map[]), Some(map[]), map[]);
    var smooth := ActivationFaults(true, true, map[], map[], DatabaseOk, {}, DirOk, map[], DirOk, map[], 0, true, true, true);
    var first := RestoreFaults(true, true, true, Valid, true, "safety", true, [], [], smooth.(mail := DirBeforeSwap), smooth);
    var second := first.(safetyId := "safety two");
    before := LiveState("old", {}, None, None, map[]);
    s := new Service([], p => p, false, false, before, map["b" := backup]);
    assert |"safety"| != |"b"| && |"safety two"| != |"b"| && |"safety two"| != |"safety"|;
    assert |"new"| == |"old"| && "new"[0] != "old"[0];
    var failed;
    ghost var mid;
    stage, failed, mid := s.RestoreAfterCrash("b", first, second);
  }

  // ---------------------------------------------------------------- the order of events

  /** An activation of an archive that came to its end: restarted and found healthy. */
  function Completed(id: string): seq<Event> {
    [Activation(id, true), Restart(true), Health(true)]
  }

  /** An activation that stopped at its first failure. */
  predicate Broken(id: string, es: seq<Event>) {
    || es == [Activation(id, false)]
    || es == [Activation(id, true), Restart(false)]
    || es == [Activation(id, true), Restart(true), Health(false)]
  }

  /** A rollback, completed or stopped at its first failure. */
  predicate RollbackEvents(safetyId: string, rolledBack: bool, es: seq<Event>) {
    && es != [] && es[0] == RollbackStarted
    && if rolledBack then es[1..] == Completed(safetyId) else es[1..] == [] || Broken(safetyId, es[1..])
  }

  /** Activated after a completed activation and nothing else; every broken activation is
      followed by a rollback, and rolled back is reported exactly when that one completed. */
  ghost predicate RestoreEvents(id: string, safetyId: string, stage: Option<StageResult>, failed: bool,
                                es: seq<Event>) {
    if es == [] then
      if failed then stage == None else Reports(stage, Failed) && !stage.value.rolledBack
    else if Reports(stage, Activated) then
      !failed && !stage.value.rolledBack && es == Completed(id)
    else
      && failed && stage.Some? && (stage.value.rolledBack <==> stage.value.status == RolledBack)
      && exists k: nat :: k <= |es| && Broken(id, es[..k]) && RollbackEvents(safetyId, stage.value.rolledBack, es[k..])
  }
}
