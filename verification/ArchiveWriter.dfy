/** Writing a canonical archive, and why the validator accepts what is written. */
module ArchiveWriter {
  import opened Outcomes
  import opened Text
  import opened ArchiveFormat

  datatype KeyFile = KeyFile(base: string, staged: Option<string>)

  /** What a backup directory offers: the snapshots, the redacted configuration files by base
      name, and the staged key files. */
  datatype Source = Source(database: Option<string>, mailStore: Option<string>, attachments: Option<string>,
                           config: Option<string>, envs: seq<Entry>, keys: seq<KeyFile>)

  datatype WriteError = MissingPayload | MissingKey | IoFailure

  predicate Complete(ctx: Context, src: Source) {
    src.mailStore.Some? && src.attachments.Some? && (ctx.encryption ==> forall k <- src.keys :: k.staged.Some?)
  }

  function Optional(name: string, data: Option<string>): seq<Entry> {
    if data.Some? then [Entry(name, data.value)] else []
  }

  function EnvEntry(e: Entry): Entry {
    Entry(ENV_PREFIX + e.name + ".redacted", e.data)
  }

  function KeyEntry(k: KeyFile): Entry
    requires k.staged.Some?
  {
    Entry(SECRETS_PREFIX + k.base, k.staged.value)
  }

  function Envs(envs: seq<Entry>): (es: seq<Entry>)
    ensures |es| == |envs| && forall i :: 0 <= i < |envs| ==> es[i] == EnvEntry(envs[i])
  {
    seq(|envs|, i requires 0 <= i < |envs| => EnvEntry(envs[i]))
  }

  function Keys(keys: seq<KeyFile>): (es: seq<Entry>)
    requires forall k <- keys :: k.staged.Some?
    ensures |es| == |keys| && forall i :: 0 <= i < |keys| ==> es[i] == KeyEntry(keys[i])
  {
    seq(|keys|, i requires 0 <= i < |keys| => KeyEntry(keys[i]))
  }

  /** The payload files of the archive, in the order they are written. */
  function Payloads(ctx: Context, src: Source): seq<Entry>
    requires Complete(ctx, src)
  {
    Optional(DATABASE, src.database) + [Entry(MAIL_STORE, src.mailStore.value), Entry(ATTACHMENTS, src.attachments.value)]
    + Optional(CONFIG, src.config) + Envs(src.envs) + if ctx.encryption then Keys(src.keys) else []
  }

  function Names(files: seq<Entry>): (names: seq<string>)
    ensures |names| == |files| && forall i :: 0 <= i < |files| ==> names[i] == files[i].name
  {
    seq(|files|, i requires 0 <= i < |files| => files[i].name)
  }

  function LinesOf(ctx: Context, files: seq<Entry>): (lines: seq<Line>)
    ensures |lines| == |files| && forall i :: 0 <= i < |files| ==> lines[i] == Line(ctx.digest(files[i].data), files[i].name)
  {
    seq(|files|, i requires 0 <= i < |files| => Line(ctx.digest(files[i].data), files[i].name))
  }

  /** The payload, the manifest that lists it, and the instructions. */
  function Described(ctx: Context, payloads: seq<Entry>, instructions: string): seq<Entry> {
    payloads
    + [Entry(MANIFEST, ctx.encode(Manifest(PRODUCT_NAME, FORMAT_VERSION, Names(payloads)))), Entry(INSTRUCTIONS, instructions)]
  }

  /** Every file of the archive: last, the checksums of all the others. */
  function Contents(ctx: Context, src: Source, instructions: string): seq<Entry>
    requires Complete(ctx, src)
  {
    var described := Described(ctx, Payloads(ctx, src), instructions);
    described + [Entry(CHECKSUMS, Render(LinesOf(ctx, described)))]
  }

  function Tar(files: seq<Entry>): (es: seq<TarEntry>)
    ensures |es| == |files| && forall i :: 0 <= i < |files| ==> es[i] == TarEntry(Regular, files[i].name, files[i].data)
  {
    seq(|files|, i requires 0 <= i < |files| => TarEntry(Regular, files[i].name, files[i].data))
  }

  /** A file on disk: an archive, or the text of a checksum file. */
  datatype File = Packed(entries: seq<TarEntry>) | Listing(text: string)

  type Disk = map<string, File>

  /** The archive under construction: the tar entries so far, in their file, and their checksum
      lines. The calls whose numbers are in `failing` fail. */
  class Builder {
    const ctx: Context
    const path: string
    const failing: set<nat>
    var calls: nat
    var disk: Disk
    var items: seq<Line>
    ghost const before: Disk
    ghost var files: seq<Entry>

    ghost predicate Valid()
      reads this
    {
      path in disk && disk[path] == Packed(Tar(files)) && items == LinesOf(ctx, files)
    }

    /** Only the archive's own file differs from what was there. */
    ghost predicate Alone()
      reads this
    {
      path in disk && disk[path].Packed? && disk == before[path := disk[path]]
    }

    /** An empty archive file; an older one of that name is lost. */
    constructor (ctx: Context, path: string, disk: Disk, failing: set<nat>, calls: nat)
      ensures this.ctx == ctx && this.path == path && this.failing == failing && this.calls == calls
      ensures Valid() && Alone() && files == [] && this.disk == disk[path := Packed([])] && before == disk
    {
      this.ctx, this.path, this.failing, this.calls := ctx, path, failing, calls;
      this.disk, this.before, items, files := disk[path := Packed([])], disk, [], [];
    }

    method Attempt() returns (ok: bool)
      modifies this`calls
      ensures calls == old(calls) + 1 && ok == (old(calls) !in failing)
    {
      ok := calls !in failing;
      calls := calls + 1;
    }

    /** A write that fails may leave a part of the entry behind. */
    method WriteEntry(name: string, data: string) returns (ok: bool)
      requires Valid() && Alone()
      modifies this
      ensures Alone()
      ensures ok ==> Valid() && files == old(files) + [Entry(name, data)]
      ensures failing == {} ==> ok
    {
      ok := Attempt();
      var written := TarEntry(Regular, name, if ok then data else "");
      disk := disk[path := Packed(disk[path].entries + [written])];
      if !ok { return; }
      items := items + [Line(ctx.digest(data), name)];
      files := files + [Entry(name, data)];
    }

    method WriteOptional(name: string, data: Option<string>) returns (ok: bool)
      requires Valid() && Alone()
      modifies this
      ensures Alone()
      ensures ok ==> Valid() && files == old(files) + Optional(name, data)
      ensures failing == {} ==> ok
    {
      ok := true;
      if data.Some? {
        ok := WriteEntry(name, data.value);
      }
    }

    method WriteEnvs(envs: seq<Entry>) returns (ok: bool)
      requires Valid() && Alone()
      modifies this
      ensures Alone()
      ensures ok ==> Valid() && files == old(files) + Envs(envs)
      ensures failing == {} ==> ok
    {
      for i := 0 to |envs|
        invariant Alone() && Valid() && files == old(files) + Envs(envs)[..i]
      {
        ok := WriteEntry(ENV_PREFIX + envs[i].name + ".redacted", envs[i].data);
        if !ok { return; }
      }
      ok := true;
    }

    method WriteKeys(keys: seq<KeyFile>) returns (failure: Option<WriteError>)
      requires Valid() && Alone()
      modifies this
      ensures Alone()
      ensures failure.None? ==> (forall k <- keys :: k.staged.Some?) && Valid() && files == old(files) + Keys(keys)
      ensures failing == {} ==> failure == if forall k <- keys :: k.staged.Some? then None else Some(MissingKey)
    {
      for i := 0 to |keys|
        invariant Alone() && Valid() && forall k <- keys[..i] :: k.staged.Some?
        invariant files == old(files) + Keys(keys[..i])
      {
        if keys[i].staged.None? { return Some(MissingKey); }
        assert keys[..i + 1] == keys[..i] + [keys[i]];
        assert Keys(keys[..i + 1]) == Keys(keys[..i]) + [KeyEntry(keys[i])];
        var ok := WriteEntry(SECRETS_PREFIX + keys[i].base, keys[i].staged.value);
        if !ok { return Some(IoFailure); }
      }
      assert keys[..|keys|] == keys;
      failure := None;
    }

    /** Database, mail store and attachments. */
    method WriteData(src: Source) returns (failure: Option<WriteError>)
      requires Valid() && Alone() && files == []
      modifies this
      ensures Alone()
      ensures failure.None? ==>
                && src.mailStore.Some? && src.attachments.Some? && Valid()
                && files == Optional(DATABASE, src.database)
                            + [Entry(MAIL_STORE, src.mailStore.value), Entry(ATTACHMENTS, src.attachments.value)]
      ensures failing == {} ==> (failure.None? <==> src.mailStore.Some? && src.attachments.Some?)
    {
      hide Builder.Valid, Builder.Alone, Optional;
      var ok := WriteOptional(DATABASE, src.database);
      if !ok { return Some(IoFailure); }
      if src.mailStore.None? || src.attachments.None? { return Some(MissingPayload); }
      ok := WriteEntry(MAIL_STORE, src.mailStore.value);
      if !ok { return Some(IoFailure); }
      ok := WriteEntry(ATTACHMENTS, src.attachments.value);
      failure := if ok then None else Some(IoFailure);
    }

    method WritePayloads(src: Source) returns (failure: Option<WriteError>)
      requires Valid() && Alone() && files == []
      modifies this
      ensures Alone()
      ensures failure.None? ==> Complete(ctx, src) && Valid() && files == Payloads(ctx, src)
      ensures failing == {} ==> (failure.None? <==> Complete(ctx, src))
    {
      hide Builder.Valid, Builder.Alone, Optional, Envs, Keys;
      failure := WriteData(src);
      if failure.Some? { return; }
      var ok := WriteOptional(CONFIG, src.config);
      if !ok { return Some(IoFailure); }
      ok := WriteEnvs(src.envs);
      if !ok { return Some(IoFailure); }
      if ctx.encryption {
        failure := WriteKeys(src.keys);
      }
    }

    /** The manifest of what has been written, the instructions and the checksums of it all. */
    method WriteDescription(instructions: string) returns (ok: bool)
      requires Valid() && Alone()
      modifies this
      ensures Alone()
      ensures ok ==> Valid() && var described := Described(ctx, old(files), instructions);
                                files == described + [Entry(CHECKSUMS, Render(LinesOf(ctx, described)))]
      ensures failing == {} ==> ok
    {
      hide Render;
      var listed := Paths(items);
      assert listed == Names(files);
      ok := WriteEntry(MANIFEST, ctx.encode(Manifest(PRODUCT_NAME, FORMAT_VERSION, listed)));
      if !ok { return; }
      ok := WriteEntry(INSTRUCTIONS, instructions);
      if !ok { return; }
      assert files == Described(ctx, old(files), instructions);
      ok := WriteEntry(CHECKSUMS, Render(items));
    }

    /** Payloads and description, and the archive file is closed. */
    method WriteAll(src: Source, instructions: string) returns (failure: Option<WriteError>)
      requires Valid() && Alone() && files == []
      modifies this
      ensures Alone()
      ensures failure.None? ==> Complete(ctx, src) && disk[path] == Packed(Tar(Contents(ctx, src, instructions)))
      ensures failing == {} ==> (failure.None? <==> Complete(ctx, src))
    {
      hide Render, Payloads, Complete, Described, LinesOf;
      failure := WritePayloads(src);
      if failure.Some? { return; }
      var ok := WriteDescription(instructions);
      if !ok { return Some(IoFailure); }
      ok := Attempt();
      failure := if ok then None else Some(IoFailure);
    }
  }

  function Paths(items: seq<Line>): (paths: seq<string>)
    ensures |paths| == |items| && forall i :: 0 <= i < |items| ==> paths[i] == items[i].path
  {
    seq(|items|, i requires 0 <= i < |items| => items[i].path)
  }

  /** Nothing a backup holds is left out: every part of it is in the archive, under its name and
      with its content, and the manifest lists all of them. */
  lemma NothingLeftOut(ctx: Context, src: Source, instructions: string)
    requires Complete(ctx, src)
    ensures var files := Contents(ctx, src, instructions);
            && (src.database.Some? ==> Entry("var/lib/orvix/orvix.db", src.database.value) in files)
            && Entry("var/lib/orvix/mailstore.tar.gz", src.mailStore.value) in files
            && Entry("var/lib/orvix/attachments.tar.gz", src.attachments.value) in files
            && (src.config.Some? ==> Entry("etc/orvix/orvix.yaml.redacted", src.config.value) in files)
            && (forall e <- src.envs :: Entry("etc/orvix/" + e.name + ".redacted", e.data) in files)
            && (ctx.encryption ==> forall k <- src.keys :: Entry("etc/orvix/secrets/" + k.base, k.staged.value) in files)
            && Entry("RESTORE_INSTRUCTIONS.txt", instructions) in files
            && exists items ::
                 && Entry("backup.json", ctx.encode(Manifest("Orvix Enterprise Mail", 1, items))) in files
                 && forall e <- files :: e.name in items || e.name in {"backup.json", "RESTORE_INSTRUCTIONS.txt", "checksums.txt"}
  {
    hide Render, LinesOf;
    var payloads, files := Payloads(ctx, src), Contents(ctx, src, instructions);
    PayloadsFiled(ctx, src);
    assert forall e <- payloads :: e in files;
    DescribedFiles(ctx, payloads, instructions, files);
  }

  lemma PayloadsFiled(ctx: Context, src: Source)
    requires Complete(ctx, src)
    ensures var files := Payloads(ctx, src);
            && (src.database.Some? ==> Entry(DATABASE, src.database.value) in files)
            && Entry(MAIL_STORE, src.mailStore.value) in files && Entry(ATTACHMENTS, src.attachments.value) in files
            && (src.config.Some? ==> Entry(CONFIG, src.config.value) in files)
            && (forall e <- src.envs :: Entry("etc/orvix/" + e.name + ".redacted", e.data) in files)
            && (ctx.encryption ==> forall k <- src.keys :: Entry("etc/orvix/secrets/" + k.base, k.staged.value) in files)
  {
    forall e | e in src.envs ensures EnvEntry(e) in Envs(src.envs) {
      var i :| 0 <= i < |src.envs| && src.envs[i] == e;
      assert Envs(src.envs)[i] == EnvEntry(e);
    }
    if ctx.encryption {
      forall k | k in src.keys ensures KeyEntry(k) in Keys(src.keys) {
        var i :| 0 <= i < |src.keys| && src.keys[i] == k;
        assert Keys(src.keys)[i] == KeyEntry(k);
      }
    }
  }

  lemma DescribedFiles(ctx: Context, payloads: seq<Entry>, instructions: string, files: seq<Entry>)
    requires files != [] && files == Described(ctx, payloads, instructions) + [Entry(CHECKSUMS, files[|files| - 1].data)]
    ensures forall e <- payloads :: e.name in Names(payloads)
    ensures forall e <- files :: e in payloads || e.name in {MANIFEST, INSTRUCTIONS, CHECKSUMS}
    ensures Entry(INSTRUCTIONS, instructions) in files
    ensures Entry(MANIFEST, ctx.encode(Manifest(PRODUCT_NAME, FORMAT_VERSION, Names(payloads)))) in files
  {
    forall e | e in payloads ensures e.name in Names(payloads) {
      var i :| 0 <= i < |payloads| && payloads[i] == e;
      assert Names(payloads)[i] == e.name;
    }
    var n := |payloads|;
    assert files[n].name == MANIFEST && files[n + 1] == Entry(INSTRUCTIONS, instructions);
  }

  // ---------------------------------------------------------------- the archive and its checksum file

  const ARCHIVE_NAME := "backup-archive.tar.gz"

  function SidecarOf(path: string): (side: string)
    ensures side != path
  {
    var side := path + ".sha256";
    assert |side| > |path|;
    side
  }

  /** The checksum file of an archive, with the hex digest of the packed file. */
  function SidecarText(sum: seq<TarEntry> -> string, es: seq<TarEntry>): string {
    sum(es) + "  " + ARCHIVE_NAME + ['\n']
  }

  /** An archive is opened only with a checksum file whose first word is its digest. */
  predicate Opens(sum: seq<TarEntry> -> string, disk: Disk, path: string) {
    && path in disk && disk[path].Packed? && SidecarOf(path) in disk && disk[SidecarOf(path)].Listing?
    && var words := Fields(disk[SidecarOf(path)].text);
       |words| >= 1 && |words[0]| == 64 && ToLower(sum(disk[path].entries)) == ToLower(words[0])
  }

  /** Packages a completed backup: either the archive is complete at its path, with its checksum
      file beside it, or neither is there, except for what the last two calls, which remove the
      one and the other, have failed to remove. */
  method CreateArchive(ctx: Context, sum: seq<TarEntry> -> string, src: Source, instructions: string, disk: Disk,
                       path: string, failing: set<nat>)
    returns (r: Result<(), WriteError>, calls: nat, now: Disk)
    ensures r.Ok? ==>
              && Complete(ctx, src)
              && var es := Tar(Contents(ctx, src, instructions));
                 now == disk[path := Packed(es)][SidecarOf(path) := Listing(SidecarText(sum, es))]
    ensures r.Err? && 0 in failing ==> now == disk
    ensures r.Err? && 0 !in failing ==>
              && calls > 1 && (path in now <==> calls - 2 in failing) && (SidecarOf(path) in now ==> calls - 1 in failing)
              && now - {path, SidecarOf(path)} == disk - {path, SidecarOf(path)}
    ensures failing == {} ==> (r.Ok? <==> Complete(ctx, src))
  {
    hide Contents, Complete, SidecarText, SidecarOf, Builder.Valid;
    if 0 in failing { return Err(IoFailure), 1, disk; }
    var b := new Builder(ctx, path, disk, failing, 1);
    var failure := b.WriteAll(src, instructions);
    var side := SidecarOf(path);
    now := b.disk;
    if failure.None? {
      var ok := b.Attempt();
      now := now[side := Listing(if ok then SidecarText(sum, now[path].entries) else "")];
      if ok { return Ok(()), b.calls, now; }
      failure := Some(IoFailure);
    }
    r := Err(failure.value);
    var removed := b.Attempt();
    now := if removed then now - {path} else now;
    removed := b.Attempt();
    now := if removed then now - {side} else now;
    calls := b.calls;
  }

  /** With its own checksum file an archive opens, and with the one of another archive exactly if
      that has the same digest. */
  lemma OpensExactly(sum: seq<TarEntry> -> string, disk: Disk, path: string, es: seq<TarEntry>, others: seq<TarEntry>)
    requires forall x :: IsWord(sum(x)) && |sum(x)| == 64
    ensures Opens(sum, disk[path := Packed(es)][SidecarOf(path) := Listing(SidecarText(sum, others))], path) <==>
            ToLower(sum(es)) == ToLower(sum(others))
  {
    hide ToLower, Fields;
    assert IsWord(sum(others)) && IsWord(ARCHIVE_NAME);
    FieldsOfPair(sum(others), ARCHIVE_NAME);
    FieldsIgnoreTrailingSpace(sum(others) + "  " + ARCHIVE_NAME, '\n');
  }

  // ---------------------------------------------------------------- names

  ghost predicate DistinctNames(files: seq<Entry>) {
    forall i, j :: 0 <= i < j < |files| ==> files[i].name != files[j].name
  }

  /** A name that is filed as it stands, and that can stand in a checksum line. */
  predicate PlainName(name: string) {
    IsWord(name) && '\\' !in name && ".." !in Split(name, '/') && !("/" <= name) && !("./" <= name)
  }

  /** A name the validator knows without a manifest. */
  predicate Known(ctx: Context, name: string) {
    || name in BASE_NAMES
    || (ENV_PREFIX <= name && HasSuffix(name, ENV_SUFFIX))
    || (ctx.encryption && SECRETS_PREFIX <= name)
  }

  /** The names a backup brings along are plain and distinct. */
  ghost predicate GoodNames(ctx: Context, src: Source, instructions: string)
    requires Complete(ctx, src)
  {
    && DistinctNames(Contents(ctx, src, instructions))
    && (forall e <- src.envs :: HasSuffix(e.name, ".env") && PlainName(EnvEntry(e).name))
    && (ctx.encryption ==> forall k <- src.keys :: PlainName(KeyEntry(k).name))
  }

  lemma {:induction false} HeadIsPrefix(s: string, sep: char)
    ensures Split(s, sep)[0] <= s
  {
    if s != "" {
      HeadIsPrefix(s[1..], sep);
    }
  }

  lemma {:induction false} NoParentPart(s: string)
    requires forall i :: 0 <= i < |s| - 1 ==> !(s[i] == '.' && s[i + 1] == '.')
    ensures ".." !in Split(s, '/')
  {
    if s != "" {
      NoParentPart(s[1..]);
      HeadIsPrefix(s, '/');
      var parts, rest := Split(s, '/'), Split(s[1..], '/');
      assert parts[0] != "..";
      assert parts[1..] == rest || parts[1..] == rest[1..];
      forall p | p in parts[1..] ensures p in rest {
      }
      assert parts == [parts[0]] + parts[1..];
    }
  }

  lemma PlainByLetters(name: string)
    requires name != "" && name[0] != '/' && name[0] != '.'
    requires forall i :: 0 <= i < |name| ==> !IsSpace(name[i]) && name[i] != '\\'
    requires forall i :: 0 <= i < |name| - 1 ==> !(name[i] == '.' && name[i + 1] == '.')
    ensures PlainName(name)
  {
    NoParentPart(name);
  }

  lemma MetadataNamesPlain()
    ensures PlainName(MANIFEST) && PlainName(CHECKSUMS) && PlainName(INSTRUCTIONS)
  {
    hide PlainName, Split;
    PlainByLetters(MANIFEST);
    PlainByLetters(CHECKSUMS);
    PlainByLetters(INSTRUCTIONS);
  }

  lemma DatabasePlain()
    ensures PlainName(DATABASE)
  {
    hide PlainName, Split;
    PlainByLetters(DATABASE);
  }

  lemma MailStorePlain()
    ensures PlainName(MAIL_STORE)
  {
    hide PlainName, Split;
    PlainByLetters(MAIL_STORE);
  }

  lemma AttachmentsPlain()
    ensures PlainName(ATTACHMENTS)
  {
    hide PlainName, Split;
    PlainByLetters(ATTACHMENTS);
  }

  lemma ConfigPlain()
    ensures PlainName(CONFIG)
  {
    hide PlainName, Split;
    PlainByLetters(CONFIG);
  }

  predicate Filed(ctx: Context, name: string) {
    PlainName(name) && Known(ctx, name)
  }

  lemma EnvKnown(ctx: Context, e: Entry)
    requires HasSuffix(e.name, ".env")
    ensures Known(ctx, EnvEntry(e).name)
  {
  }

  /** Every name the writer uses is one the validator knows and files as it stands. */
  lemma EverythingFiled(ctx: Context, src: Source, instructions: string)
    requires Complete(ctx, src) && GoodNames(ctx, src, instructions)
    ensures forall e <- Contents(ctx, src, instructions) :: Filed(ctx, e.name)
  {
    hide PlainName, HasSuffix, Render;
    MetadataNamesPlain();
    DatabasePlain();
    MailStorePlain();
    AttachmentsPlain();
    ConfigPlain();
    forall e | e in Envs(src.envs) ensures Filed(ctx, e.name) {
      var i :| 0 <= i < |src.envs| && e == EnvEntry(src.envs[i]);
      EnvKnown(ctx, src.envs[i]);
    }
    if ctx.encryption {
      forall e | e in Keys(src.keys) ensures Filed(ctx, e.name) {
        var i :| 0 <= i < |src.keys| && e == KeyEntry(src.keys[i]);
      }
    }
  }

  // ---------------------------------------------------------------- what the validator sees

  lemma FiledAsItStands(name: string)
    requires PlainName(name)
    ensures Slashed(name) == name && CleanName(name) == name
  {
  }

  lemma {:induction false} FilesAsWritten(files: seq<Entry>)
    requires forall e <- files :: PlainName(e.name)
    ensures FilesOf(Tar(files)) == files
  {
    hide PlainName, CleanName;
    if files != [] {
      var n := |files| - 1;
      assert Tar(files)[..n] == Tar(files[..n]);
      FilesAsWritten(files[..n]);
      FiledAsItStands(files[n].name);
      assert files == files[..n] + [files[n]];
    }
  }

  lemma {:induction false} ListedOnce(lines: seq<Line>, i: nat)
    requires i < |lines| && forall j, k :: 0 <= j < k < |lines| ==> lines[j].path != lines[k].path
    ensures Listed(lines, lines[i].path) == Some(lines[i].digest)
  {
    var n := |lines| - 1;
    if i < n {
      ListedOnce(lines[..n], i);
      assert lines[..n][i] == lines[i];
    }
  }

  function WithChecksums(described: seq<Entry>, lines: seq<Line>): seq<Entry> {
    described + [Entry(CHECKSUMS, Render(lines))]
  }

  /** The shape of a written archive: files, and last one checksum line for each of them. */
  ghost predicate Shaped(ctx: Context, described: seq<Entry>, lines: seq<Line>) {
    && |lines| == |described| && (forall i :: 0 <= i < |lines| ==> lines[i].path == described[i].name && IsWord(lines[i].digest))
    && DistinctNames(described)
    && (forall e <- described :: e.name != CHECKSUMS && Filed(ctx, e.name))
  }

  predicate Fits(ctx: Context, e: Entry) {
    |e.data| <= MaxSize(e.name) && (e.name == MANIFEST ==> GoodManifest(ctx, e.data))
  }

  lemma ShapedFiles(ctx: Context, described: seq<Entry>, lines: seq<Line>)
    requires Shaped(ctx, described, lines)
    ensures var files := WithChecksums(described, lines);
            FilesOf(Tar(files)) == files && LastChecksums(files) == lines
            && forall e <- files :: Filed(ctx, e.name)
  {
    hide PlainName, Render, ChecksumLines;
    var files := WithChecksums(described, lines);
    MetadataNamesPlain();
    FilesAsWritten(files);
    forall l | l in lines ensures IsWord(l.digest) && IsWord(l.path) {
      var i :| 0 <= i < |lines| && lines[i] == l;
      assert Filed(ctx, described[i].name);
      PlainIsWord(l.path);
    }
    ChecksumsReadBack(lines);
  }

  lemma PlainIsWord(name: string)
    requires PlainName(name)
    ensures IsWord(name)
  {
  }

  lemma FiledEntryOk(ctx: Context, e: Entry, earlier: seq<Entry>)
    requires Filed(ctx, e.name)
    ensures EntryOk(ctx, TarEntry(Regular, e.name, e.data), earlier) <==> Fits(ctx, e)
  {
    hide HasSuffix, InEarlierManifest, MaxSize;
    FiledAsItStands(e.name);
  }

  lemma ShapedEntries(ctx: Context, files: seq<Entry>)
    requires forall e <- files :: Filed(ctx, e.name)
    ensures EntriesOk(ctx, Tar(files)) <==> forall e <- files :: Fits(ctx, e)
  {
    hide EntryOk, Fits, Filed;
    var es := Tar(files);
    forall i | 0 <= i < |es| ensures EntryOk(ctx, es[i], FilesOf(es[..i])) <==> Fits(ctx, files[i]) {
      FiledEntryOk(ctx, files[i], FilesOf(es[..i]));
    }
    if EntriesOk(ctx, es) {
      forall e | e in files ensures Fits(ctx, e) {
        var i :| 0 <= i < |files| && files[i] == e;
        assert EntryOk(ctx, es[i], FilesOf(es[..i]));
      }
    }
  }

  lemma CoveredByLines(ctx: Context, files: seq<Entry>, lines: seq<Line>)
    requires |files| == |lines| + 1 && files[|lines|].name == CHECKSUMS && LastChecksums(files) == lines
    requires forall i :: 0 <= i < |lines| ==> lines[i].path == files[i].name != CHECKSUMS
    requires forall i, j :: 0 <= i < j < |lines| ==> lines[i].path != lines[j].path
    ensures Covered(ctx, files) <==> forall i :: 0 <= i < |lines| ==> Got(ctx, files[i]) == lines[i].digest
  {
    hide Got, Listed, LastChecksums;
    forall i | 0 <= i < |lines| ensures Listed(lines, files[i].name) == Some(lines[i].digest) {
      ListedOnce(lines, i);
    }
    if Covered(ctx, files) {
      forall i | 0 <= i < |lines| ensures Got(ctx, files[i]) == lines[i].digest {
        assert files[i] in files;
      }
    }
  }

  lemma ShapedCovered(ctx: Context, described: seq<Entry>, lines: seq<Line>)
    requires Shaped(ctx, described, lines)
    ensures Covered(ctx, WithChecksums(described, lines)) <==>
            forall i :: 0 <= i < |lines| ==> Got(ctx, described[i]) == lines[i].digest
  {
    hide Filed, Got, Covered, Render, LastChecksums;
    ShapedFiles(ctx, described, lines);
    var files := WithChecksums(described, lines);
    assert forall i :: 0 <= i < |lines| ==> files[i] == described[i];
    CoveredByLines(ctx, files, lines);
  }

  lemma ShapedPresent(ctx: Context, described: seq<Entry>, lines: seq<Line>)
    requires Shaped(ctx, described, lines)
    ensures Present(WithChecksums(described, lines)) && HasFile(WithChecksums(described, lines), CHECKSUMS)
  {
    hide Filed, Render, ChecksumLines;
    var files := WithChecksums(described, lines);
    ShapedFiles(ctx, described, lines);
    assert files[|described|] in files;
    forall c | c in files && c.name == CHECKSUMS ensures AllThere(files, ChecksumLines(c.data)) {
      var i :| 0 <= i < |files| && files[i] == c;
      assert i == |described| by {
        assert files[|described|].name == CHECKSUMS;
      }
      assert ChecksumLines(c.data) == lines;
      forall l | l in lines ensures HasFile(files, l.path) {
        var k :| 0 <= k < |lines| && lines[k] == l;
        assert described[k] in files;
      }
    }
  }

  /** An archive of that shape is accepted exactly when it fits and the digests the validator
      computes are the listed ones. */
  lemma ShapedAccepted(ctx: Context, described: seq<Entry>, lines: seq<Line>, size: nat)
    requires Shaped(ctx, described, lines)
    ensures var files := WithChecksums(described, lines);
            Accepted(ctx, Tar(files), size) <==>
            && size <= MAX_TOTAL && HasFile(files, MANIFEST) && (forall e <- files :: Fits(ctx, e))
            && forall i :: 0 <= i < |lines| ==> Got(ctx, described[i]) == lines[i].digest
  {
    hide Filed, Fits, Got, EntriesOk, Covered, Present, HasFile;
    ShapedFiles(ctx, described, lines);
    ShapedEntries(ctx, WithChecksums(described, lines));
    ShapedCovered(ctx, described, lines);
    ShapedPresent(ctx, described, lines);
  }

  // ---------------------------------------------------------------- the writer meets the validator

  lemma ContentsShaped(ctx: Context, src: Source, instructions: string)
    requires Sane(ctx) && Complete(ctx, src) && GoodNames(ctx, src, instructions)
    ensures var described := Described(ctx, Payloads(ctx, src), instructions);
            Shaped(ctx, described, LinesOf(ctx, described))
            && Contents(ctx, src, instructions) == WithChecksums(described, LinesOf(ctx, described))
  {
    hide Filed, Render, Payloads, Described;
    EverythingFiled(ctx, src, instructions);
    var described := Described(ctx, Payloads(ctx, src), instructions);
    var files := Contents(ctx, src, instructions);
    assert forall e <- described :: e in files;
    assert files[|described|].name == CHECKSUMS && forall i :: 0 <= i < |described| ==> files[i] == described[i];
  }

  lemma OwnManifestFits(ctx: Context, src: Source, instructions: string)
    requires Sane(ctx) && Complete(ctx, src) && GoodNames(ctx, src, instructions)
    ensures HasFile(Contents(ctx, src, instructions), MANIFEST)
    ensures forall e <- Contents(ctx, src, instructions) ::
              e.name == MANIFEST ==> GoodManifest(ctx, e.data) && !(DIGEST_MARK <= e.data)
  {
    hide Render, LinesOf, PlainName, HasSuffix, Complete, Known;
    var payloads, files := Payloads(ctx, src), Contents(ctx, src, instructions);
    assert files[|payloads|].name == MANIFEST && files[|payloads|] in files;
    ManifestReadsBack(ctx, files[|payloads|].data, Names(payloads));
  }

  lemma NotChecksums(ctx: Context, described: seq<Entry>, lines: seq<Line>)
    requires Shaped(ctx, described, lines)
    ensures forall e <- described :: e.name != CHECKSUMS
  {
    hide Filed;
  }

  /** What the writer packages is valid exactly when every file is within its limit and no
      small file but the manifest starts like somebody else's digest. */
  lemma WrittenAccepted(ctx: Context, src: Source, instructions: string, size: nat)
    requires Sane(ctx) && Complete(ctx, src) && GoodNames(ctx, src, instructions)
    ensures var files := Contents(ctx, src, instructions);
            Accepted(ctx, Tar(files), size) <==>
            && size <= MAX_TOTAL && (forall e <- files :: |e.data| <= MaxSize(e.name))
            && (forall e <- files :: e.name != CHECKSUMS && Marked(e) ==> e.data == DIGEST_MARK + ctx.digest(e.data))
  {
    hide Sane, Payloads, Described, GoodNames, GoodManifest, Shaped, Complete, Accepted, MaxSize;
    var files := Contents(ctx, src, instructions);
    var described := Described(ctx, Payloads(ctx, src), instructions);
    var lines := LinesOf(ctx, described);
    ContentsShaped(ctx, src, instructions);
    ShapedAccepted(ctx, described, lines, size);
    OwnManifestFits(ctx, src, instructions);
    NotChecksums(ctx, described, lines);
    assert (forall i :: 0 <= i < |lines| ==> Got(ctx, described[i]) == lines[i].digest) <==>
           forall e <- described :: Marked(e) ==> e.data == DIGEST_MARK + ctx.digest(e.data) by {
      forall e ensures Got(ctx, e) == ctx.digest(e.data) <==> (Marked(e) ==> e.data == DIGEST_MARK + ctx.digest(e.data)) {
        GotOwn(ctx, e);
      }
    }
  }

  // ---------------------------------------------------------------- a file taken at its word

  const MARKED_FILE := "etc/orvix/a.env.redacted"

  function MarkedFiles(ctx: Context, word: string): seq<Entry> {
    [Entry(MANIFEST, ctx.encode(Manifest(PRODUCT_NAME, FORMAT_VERSION, []))), Entry(MARKED_FILE, DIGEST_MARK + word)]
  }

  function MarkedLines(ctx: Context, word: string): seq<Line> {
    [Line(ctx.digest(MarkedFiles(ctx, word)[0].data), MANIFEST), Line(word, MARKED_FILE)]
  }

  lemma MarkedNamePlain()
    ensures PlainName(MARKED_FILE)
  {
    hide PlainName, Split;
    PlainByLetters(MARKED_FILE);
  }

  lemma MarkedShaped(ctx: Context, word: string)
    requires Sane(ctx) && IsWord(word)
    ensures Shaped(ctx, MarkedFiles(ctx, word), MarkedLines(ctx, word))
  {
    hide PlainName, Render;
    MetadataNamesPlain();
    MarkedNamePlain();
    assert ENV_PREFIX <= MARKED_FILE && HasSuffix(MARKED_FILE, ENV_SUFFIX);
  }

  /** Any word at all is accepted as the digest of a file that names it: the verdict does not
      mean that the listed digest is the file's. */
  lemma MarkedAccepted(ctx: Context, word: string, size: nat)
    requires Sane(ctx) && IsWord(word) && |word| < 1024 && size <= MAX_TOTAL
    requires |MarkedFiles(ctx, word)[0].data| <= MAX_METADATA && |Render(MarkedLines(ctx, word))| <= MAX_METADATA
    ensures Accepted(ctx, Tar(WithChecksums(MarkedFiles(ctx, word), MarkedLines(ctx, word))), size)
  {
    hide Shaped, Render, Accepted;
    var described, lines := MarkedFiles(ctx, word), MarkedLines(ctx, word);
    MarkedShaped(ctx, word);
    ShapedAccepted(ctx, described, lines, size);
    var files := WithChecksums(described, lines);
    assert files == [described[0], described[1], Entry(CHECKSUMS, Render(lines))];
    assert described[0] in files;
  }

  // ---------------------------------------------------------------- key files without encryption

  /** A file in the place of the key files that the manifest before it lists. */
  predicate SecretListed(ctx: Context, e: TarEntry, earlier: seq<Entry>) {
    e.kind == Regular && SECRETS_PREFIX <= CleanName(e.name) ==>
      HasSuffix(CleanName(e.name), ENV_SUFFIX) || InEarlierManifest(ctx, CleanName(e.name), earlier)
  }

  /** Without encryption key files are still accepted, exactly when a manifest before them lists
      them. */
  lemma KeysWithoutEncryption(ctx: Context, es: seq<TarEntry>, size: nat)
    requires !ctx.encryption
    ensures Accepted(ctx, es, size) <==>
            && Accepted(ctx.(encryption := true), es, size)
            && forall i :: 0 <= i < |es| ==> SecretListed(ctx, es[i], FilesOf(es[..i]))
  {
    hide CleanName, FilesOf, MaxSize, HasSuffix, HasFile, LastChecksums, Listed, Present;
    var other := ctx.(encryption := true);
    forall i | 0 <= i < |es|
      ensures EntryOk(ctx, es[i], FilesOf(es[..i])) <==>
              EntryOk(other, es[i], FilesOf(es[..i])) && SecretListed(ctx, es[i], FilesOf(es[..i]))
    {
      EntryWithoutEncryption(ctx, es[i], FilesOf(es[..i]));
    }
    assert Covered(ctx, FilesOf(es)) <==> Covered(other, FilesOf(es)) by {
      assert forall e: Entry :: Got(ctx, e) == Got(other, e);
    }
  }

  lemma EntryWithoutEncryption(ctx: Context, e: TarEntry, earlier: seq<Entry>)
    requires !ctx.encryption
    ensures EntryOk(ctx, e, earlier) <==> EntryOk(ctx.(encryption := true), e, earlier) && SecretListed(ctx, e, earlier)
  {
    hide CleanName, MaxSize, HasSuffix;
    var name := CleanName(e.name);
    assert InEarlierManifest(ctx.(encryption := true), name, earlier) == InEarlierManifest(ctx, name, earlier);
    if SECRETS_PREFIX <= name {
      assert ENV_PREFIX <= SECRETS_PREFIX <= name;
      assert SECRETS_PREFIX[10] == name[10] == 's';
      assert name !in BASE_NAMES by {
        assert |name| >= |SECRETS_PREFIX| && CONFIG[10] == 'o';
      }
    }
  }

  const KEY_FILE := "etc/orvix/secrets/jwt.key"

  function KeyFiles(ctx: Context, key: string): seq<Entry> {
    [Entry(MANIFEST, ctx.encode(Manifest(PRODUCT_NAME, FORMAT_VERSION, [KEY_FILE]))), Entry(KEY_FILE, key)]
  }

  lemma KeyFilePlain()
    ensures PlainName(KEY_FILE)
  {
    hide PlainName, Split;
    PlainByLetters(KEY_FILE);
  }

  lemma KeyFileNamed()
    ensures PlainName(KEY_FILE) && SECRETS_PREFIX <= KEY_FILE && KEY_FILE !in BASE_NAMES
    ensures MaxSize(KEY_FILE) == MaxSize(MANIFEST) == MaxSize(CHECKSUMS) == MAX_METADATA
  {
    hide PlainName, Split;
    KeyFilePlain();
  }

  /** Such an archive, whatever key it brings. */
  lemma KeyFileAccepted(ctx: Context, key: string, size: nat)
    requires Sane(ctx) && !ctx.encryption && size <= MAX_TOTAL && !(DIGEST_MARK <= key)
    requires forall e <- WithChecksums(KeyFiles(ctx, key), LinesOf(ctx, KeyFiles(ctx, key))) :: |e.data| <= MAX_METADATA
    ensures Accepted(ctx, Tar(WithChecksums(KeyFiles(ctx, key), LinesOf(ctx, KeyFiles(ctx, key)))), size)
  {
    hide *;
    var other, described := ctx.(encryption := true), KeyFiles(ctx, key);
    var lines := LinesOf(ctx, described);
    KeyFilesShaped(ctx, key);
    KeyFilesFit(ctx, key);
    ShapedAccepted(other, described, lines, size);
    KeyFilesListed(ctx, key);
    KeysWithoutEncryption(ctx, Tar(WithChecksums(described, lines)), size);
  }

  lemma KeyFilesFit(ctx: Context, key: string)
    requires Sane(ctx) && !(DIGEST_MARK <= key)
    requires forall e <- WithChecksums(KeyFiles(ctx, key), LinesOf(ctx, KeyFiles(ctx, key))) :: |e.data| <= MAX_METADATA
    ensures var described, other := KeyFiles(ctx, key), ctx.(encryption := true);
            var lines := LinesOf(ctx, described);
            var files := WithChecksums(described, lines);
            && HasFile(files, MANIFEST) && (forall e <- files :: Fits(other, e))
            && forall i :: 0 <= i < |lines| ==> Got(other, described[i]) == lines[i].digest
  {
    hide MaxSize, Render, LinesOf, PlainName, Got, Sane;
    KeyFileNamed();
    var described, other := KeyFiles(ctx, key), ctx.(encryption := true);
    var files := WithChecksums(described, LinesOf(ctx, described));
    assert files == [described[0], described[1], Entry(CHECKSUMS, Render(LinesOf(ctx, described)))];
    assert described[0] in files;
    ManifestReadsBack(ctx, described[0].data, [KEY_FILE]);
    assert KEY_FILE[0] == 'e' && CHECKSUMS[0] == 'c' && MANIFEST[0] == 'b';
    forall i | 0 <= i < 2 ensures Got(other, described[i]) == ctx.digest(described[i].data) {
      UnmarkedGot(other, described[i]);
    }
  }

  lemma ManifestReadsBack(ctx: Context, data: string, items: seq<string>)
    requires Sane(ctx) && data == ctx.encode(Manifest(PRODUCT_NAME, FORMAT_VERSION, items))
    ensures GoodManifest(ctx, data) && GoodManifest(ctx.(encryption := true), data) && !(DIGEST_MARK <= data)
  {
  }

  lemma UnmarkedGot(ctx: Context, e: Entry)
    requires !(DIGEST_MARK <= e.data)
    ensures Got(ctx, e) == ctx.digest(e.data)
  {
  }

  lemma KeyFilesListed(ctx: Context, key: string)
    requires Sane(ctx)
    ensures var files := WithChecksums(KeyFiles(ctx, key), LinesOf(ctx, KeyFiles(ctx, key)));
            forall i :: 0 <= i < |files| ==> SecretListed(ctx, Tar(files)[i], FilesOf(Tar(files)[..i]))
  {
    hide PlainName, Render, Split, HasSuffix, FilesOf, CleanName;
    KeyFileNamed();
    MetadataNamesPlain();
    var described := KeyFiles(ctx, key);
    var files := WithChecksums(described, LinesOf(ctx, described));
    assert files == described + [files[2]];
    forall i | 0 <= i < |files| ensures SecretListed(ctx, Tar(files)[i], FilesOf(Tar(files)[..i])) {
      FiledAsItStands(files[i].name);
      if i == 1 {
        FilesAsWritten([files[0]]);
        assert Tar(files)[..1] == Tar([files[0]]);
        assert files[0] in [files[0]];
      } else {
        assert MANIFEST[0] == 'b' && CHECKSUMS[0] == 'c';
      }
    }
  }

  lemma KeyFilesShaped(ctx: Context, key: string)
    requires Sane(ctx)
    ensures Shaped(ctx.(encryption := true), KeyFiles(ctx, key), LinesOf(ctx, KeyFiles(ctx, key)))
  {
    hide PlainName, Render;
    MetadataNamesPlain();
    KeyFileNamed();
  }
}
