/** From a live state to a backup and back: the snapshot is packaged, encrypted, decrypted,
    validated and unpacked, and what is staged for a restore is the snapshot. */
module BackupRoundTrip {
  import opened Outcomes
  import opened Text
  import opened ArchiveFormat
  import opened ArchiveWriter
  import opened BackupEnvelope
  import opened RestoreService

  /** The packed forms of an archive's entries and of a directory. */
  datatype Codec = Codec(tar: seq<TarEntry> -> Bytes, untar: Bytes -> Option<seq<TarEntry>>,
                         unpack: string -> Option<Tree>)

  ghost predicate Faithful(codec: Codec) {
    forall es :: codec.untar(codec.tar(es)) == Some(es)
  }

  // ---------------------------------------------------------------- where a file is unpacked

  function Steps(parts: seq<string>): seq<string> {
    if parts == [] then [] else (if parts[0] == "" || parts[0] == "." then [] else [parts[0]]) + Steps(parts[1..])
  }

  /** The directories and the name a file is unpacked under: empty parts and dots count nothing. */
  function Place(name: string): seq<string> {
    Steps(Split(name, '/'))
  }

  /** A name without empty parts and dots is its own place. */
  predicate Proper(name: string) {
    forall p <- Split(name, '/') :: p != "" && p != "."
  }

  /** What is unpacked last at a place stays there. */
  function FileAt(files: seq<Entry>, place: seq<string>): Option<string> {
    if files == [] then None
    else if Place(files[|files| - 1].name) == place then Some(files[|files| - 1].data)
    else FileAt(files[..|files| - 1], place)
  }

  const SECRETS_PLACE := ["etc", "orvix", "secrets"]

  predicate SecretAt(e: Entry) {
    |Place(e.name)| == 4 && Place(e.name)[..3] == SECRETS_PLACE
  }

  function SecretsOf(files: seq<Entry>): Tree {
    if files == [] then map[]
    else
      var last, rest := files[|files| - 1], SecretsOf(files[..|files| - 1]);
      if SecretAt(last) then rest[Place(last.name)[3] := last.data] else rest
  }

  function Unpacked(codec: Codec, data: Option<string>): Option<Tree> {
    if data.None? then None else codec.unpack(data.value)
  }

  function ManifestOf(ctx: Context, data: Option<string>): Option<Manifest> {
    if data.None? then None else ctx.decode(data.value)
  }

  /** What an activation finds of an unpacked archive. */
  function Staged(codec: Codec, ctx: Context, files: seq<Entry>): Archive {
    var m := ManifestOf(ctx, FileAt(files, Place(MANIFEST)));
    Archive(if m.Some? then m.value.product else "", if m.Some? then m.value.version else 0,
            FileAt(files, Place(DATABASE)),
            Unpacked(codec, FileAt(files, Place(MAIL_STORE))), Unpacked(codec, FileAt(files, Place(ATTACHMENTS))),
            SecretsOf(files))
  }

  /** A packaged and encrypted backup. */
  function Sealed(codec: Codec, ctx: Context, aead: Aead, nonces: nat -> Nonce, src: Source, instructions: string): Bytes
    requires Complete(ctx, src)
  {
    Written(aead, nonces, codec.tar(Tar(Contents(ctx, src, instructions))))
  }

  /** The entries of an encrypted backup, as far as it can be opened. */
  function EntriesOf(codec: Codec, aead: Aead, file: Bytes): Option<seq<TarEntry>> {
    var r := OpenEnvelope(aead, file);
    if r.Ok? then codec.untar(r.value) else None
  }

  // ---------------------------------------------------------------- places of the known names

  /** A name in a directory: a part that counts, without a separator. */
  predicate IsBase(name: string) {
    name != "" && name != "." && '/' !in name
  }

  lemma {:induction false} SplitWord(w: string)
    requires '/' !in w
    ensures Split(w, '/') == [w]
  {
    if w != "" {
      SplitWord(w[1..]);
      assert w[0] in w && [w[0]] + w[1..] == w;
    }
  }

  lemma PlaceOfBase(w: string)
    requires IsBase(w)
    ensures Place(w) == [w] && Proper(w)
  {
    SplitWord(w);
    assert [w][1..] == [];
    assert Steps([w]) == [w] + Steps([]);
  }

  lemma PlaceBelow(dir: string, rest: string)
    requires IsBase(dir)
    ensures Place(dir + ['/'] + rest) == [dir] + Place(rest)
    ensures Proper(rest) ==> Proper(dir + ['/'] + rest)
  {
    SplitOff(dir, rest, '/');
    assert ([dir] + Split(rest, '/'))[1..] == Split(rest, '/');
  }

  lemma PlaceOfConfig(base: string)
    requires IsBase(base)
    ensures Place(ENV_PREFIX + base) == ["etc", "orvix", base] && Proper(ENV_PREFIX + base)
  {
    hide Place, Proper;
    PlaceOfBase(base);
    PlaceBelow("orvix", base);
    PlaceBelow("etc", "orvix" + ['/'] + base);
    assert ENV_PREFIX + base == "etc" + ['/'] + ("orvix" + ['/'] + base);
  }

  lemma PlaceOfSecret(base: string)
    requires IsBase(base)
    ensures Place(SECRETS_PREFIX + base) == ["etc", "orvix", "secrets", base]
  {
    hide Place, Proper;
    PlaceOfBase(base);
    PlaceBelow("secrets", base);
    PlaceBelow("orvix", "secrets" + ['/'] + base);
    PlaceBelow("etc", "orvix" + ['/'] + ("secrets" + ['/'] + base));
    assert SECRETS_PREFIX + base == "etc" + ['/'] + ("orvix" + ['/'] + ("secrets" + ['/'] + base));
  }

  lemma PlaceOfData(base: string)
    requires IsBase(base)
    ensures Place("var/lib/orvix/" + base) == ["var", "lib", "orvix", base] && Proper("var/lib/orvix/" + base)
  {
    hide Place, Proper;
    PlaceOfBase(base);
    PlaceBelow("orvix", base);
    PlaceBelow("lib", "orvix" + ['/'] + base);
    PlaceBelow("var", "lib" + ['/'] + ("orvix" + ['/'] + base));
    assert "var/lib/orvix/" + base == "var" + ['/'] + ("lib" + ['/'] + ("orvix" + ['/'] + base));
  }

  lemma PlaceOfDatabase()
    ensures Place(DATABASE) == ["var", "lib", "orvix", "orvix.db"] && Proper(DATABASE)
  {
    hide Place, Proper;
    PlaceOfData("orvix.db");
    assert DATABASE == "var/lib/orvix/" + "orvix.db";
  }

  lemma ArchiveBases()
    ensures IsBase("mailstore.tar.gz") && IsBase("attachments.tar.gz")
  {
  }

  lemma PlaceOfMailStore()
    ensures Place(MAIL_STORE) == ["var", "lib", "orvix", "mailstore.tar.gz"] && Proper(MAIL_STORE)
  {
    hide Place, Proper, IsBase;
    assert IsBase("mailstore.tar.gz") by { ArchiveBases(); }
    PlaceOfData("mailstore.tar.gz");
    assert MAIL_STORE == "var/lib/orvix/" + "mailstore.tar.gz";
  }

  lemma PlaceOfAttachments()
    ensures Place(ATTACHMENTS) == ["var", "lib", "orvix", "attachments.tar.gz"] && Proper(ATTACHMENTS)
  {
    hide Place, Proper, IsBase;
    assert IsBase("attachments.tar.gz") by { ArchiveBases(); }
    PlaceOfData("attachments.tar.gz");
    assert ATTACHMENTS == "var/lib/orvix/" + "attachments.tar.gz";
  }

  lemma PlaceOfRedactedConfig()
    ensures Place(CONFIG) == ["etc", "orvix", "orvix.yaml.redacted"]
  {
    hide Place, Proper;
    PlaceOfConfig("orvix.yaml.redacted");
    assert CONFIG == ENV_PREFIX + "orvix.yaml.redacted";
  }

  lemma PlacesOfMetadata()
    ensures Place(MANIFEST) == [MANIFEST] && Place(INSTRUCTIONS) == [INSTRUCTIONS] && Place(CHECKSUMS) == [CHECKSUMS]
    ensures Proper(MANIFEST) && Proper(CHECKSUMS)
  {
    hide Place, Proper;
    PlaceOfBase(MANIFEST);
    PlaceOfBase(INSTRUCTIONS);
    PlaceOfBase(CHECKSUMS);
  }

  // ---------------------------------------------------------------- what is found of a written archive

  lemma {:induction false} FileAtLater(a: seq<Entry>, b: seq<Entry>, place: seq<string>)
    ensures FileAt(a + b, place) == if FileAt(b, place).Some? then FileAt(b, place) else FileAt(a, place)
  {
    hide Place, Proper;
    if b == [] {
      assert a + b == a;
    } else {
      var n := |b| - 1;
      assert (a + b)[..|a| + n] == a + b[..n] && (a + b)[|a| + n] == b[n];
      FileAtLater(a, b[..n], place);
    }
  }

  lemma {:induction false} NotAt(files: seq<Entry>, place: seq<string>)
    requires forall e <- files :: Place(e.name) != place
    ensures FileAt(files, place) == None
  {
    hide Place, Proper;
    if files != [] {
      NotAt(files[..|files| - 1], place);
    }
  }

  /** Files that are no keys before the keys, or after them, make no difference. */
  lemma {:induction false} SecretsAmong(a: seq<Entry>, b: seq<Entry>, c: seq<Entry>)
    requires forall e <- a + c :: !SecretAt(e)
    ensures SecretsOf(a + b + c) == SecretsOf(b)
    decreases |a| + |b| + |c|
  {
    hide SecretAt;
    if c != [] {
      var n := |c| - 1;
      assert (a + b + c)[..|a + b| + n] == a + b + c[..n] && (a + b + c)[|a + b| + n] == c[n];
      assert c[n] in a + c;
      SecretsAmong(a, b, c[..n]);
    } else if b != [] {
      var n := |b| - 1;
      assert (a + b + c)[..|a| + n] == a + b[..n] + [] && (a + b + c)[|a| + n] == b[n];
      SecretsAmong(a, b[..n], []);
    } else if a != [] {
      var n := |a| - 1;
      assert (a + b + c)[..n] == a[..n] + [] + [] && (a + b + c)[n] == a[n];
      assert a[n] in a + c;
      SecretsAmong(a[..n], [], []);
    } else {
      assert a + b + c == b;
    }
  }

  lemma {:induction false} SecretsOfKeys(keys: seq<KeyFile>, secrets: Tree)
    requires forall k <- keys :: k.staged.Some? && IsBase(k.base)
    requires forall k <- keys :: k.base in secrets && secrets[k.base] == k.staged.value
    ensures forall b :: b in SecretsOf(Keys(keys)) <==> exists k <- keys :: k.base == b
    ensures forall b <- SecretsOf(Keys(keys)).Keys :: b in secrets && SecretsOf(Keys(keys))[b] == secrets[b]
  {
    hide Place, IsBase;
    if keys != [] {
      var n := |keys| - 1;
      SecretsOfKeys(keys[..n], secrets);
      assert Keys(keys)[..n] == Keys(keys[..n]);
      PlaceOfSecret(keys[n].base);
      assert keys == keys[..n] + [keys[n]];
      assert SecretsOf(Keys(keys)) == SecretsOf(Keys(keys[..n]))[keys[n].base := keys[n].staged.value];
    }
  }

  /** The backup directory holds this archive's parts. */
  ghost predicate Packs(codec: Codec, ctx: Context, a: Archive, src: Source) {
    && a.product == PRODUCT_NAME && a.version == FORMAT_VERSION && src.database == a.database
    && src.mailStore.Some? && codec.unpack(src.mailStore.value) == a.mail
    && src.attachments.Some? && codec.unpack(src.attachments.value) == a.attachments
    && (if ctx.encryption then KeysPacked(a.secrets, src.keys) else a.secrets == map[])
  }

  ghost predicate KeysPacked(secrets: Tree, keys: seq<KeyFile>) {
    && (forall k <- keys :: k.staged.Some? && k.base in secrets && secrets[k.base] == k.staged.value)
    && (forall b <- secrets.Keys :: exists k <- keys :: k.base == b)
  }

  /** The configuration and key files have names of their own, without a directory. */
  predicate BaseNamed(src: Source) {
    (forall e <- src.envs :: IsBase(e.name + ".redacted")) && (forall k <- src.keys :: IsBase(k.base))
  }

  // The written archive in three parts: the data, the rest of the payload, the metadata.

  function Data(src: Source): seq<Entry>
    requires src.mailStore.Some? && src.attachments.Some?
  {
    Optional(DATABASE, src.database) + [Entry(MAIL_STORE, src.mailStore.value), Entry(ATTACHMENTS, src.attachments.value)]
  }

  function Settings(src: Source): seq<Entry> {
    Optional(CONFIG, src.config) + Envs(src.envs)
  }

  function SecretFiles(ctx: Context, src: Source): seq<Entry>
    requires Complete(ctx, src)
  {
    if ctx.encryption then Keys(src.keys) else []
  }

  function Metadata(ctx: Context, src: Source, instructions: string): (es: seq<Entry>)
    requires Complete(ctx, src)
    ensures |es| == 3 && es[0].name == MANIFEST && es[1].name == INSTRUCTIONS && es[2].name == CHECKSUMS
    ensures es[0].data == ctx.encode(Manifest(PRODUCT_NAME, FORMAT_VERSION, Names(Payloads(ctx, src))))
  {
    Contents(ctx, src, instructions)[|Payloads(ctx, src)|..]
  }

  lemma ContentsParts(ctx: Context, src: Source, instructions: string)
    requires Complete(ctx, src)
    ensures Contents(ctx, src, instructions)
         == Data(src) + Settings(src) + SecretFiles(ctx, src) + Metadata(ctx, src, instructions)
  {
    hide Render, LinesOf, Optional, Keys, Envs;
    assert Payloads(ctx, src) == Data(src) + Settings(src) + SecretFiles(ctx, src);
    assert Contents(ctx, src, instructions)[..|Payloads(ctx, src)|] == Payloads(ctx, src);
  }

  lemma DataPlaces(src: Source)
    requires src.mailStore.Some? && src.attachments.Some?
    ensures forall e <- Data(src) :: |Place(e.name)| == 4 && Place(e.name)[0] == "var"
    ensures FileAt(Data(src), Place(DATABASE)) == src.database
    ensures FileAt(Data(src), Place(MAIL_STORE)) == src.mailStore && FileAt(Data(src), Place(ATTACHMENTS)) == src.attachments
  {
    hide Place, Proper;
    PlaceOfDatabase();
    PlaceOfMailStore();
    PlaceOfAttachments();
    assert |"orvix.db"| == 8 && |"mailstore.tar.gz"| == 16 && |"attachments.tar.gz"| == 18;
    assert Place(DATABASE)[3] != Place(MAIL_STORE)[3] && Place(DATABASE)[3] != Place(ATTACHMENTS)[3];
    assert Place(MAIL_STORE)[3] != Place(ATTACHMENTS)[3];
    var first := Optional(DATABASE, src.database);
    var dirs := [Entry(MAIL_STORE, src.mailStore.value), Entry(ATTACHMENTS, src.attachments.value)];
    FileAtLater(first, dirs, Place(DATABASE));
    NotAt(dirs, Place(DATABASE));
    FileAtOptional(DATABASE, src.database);
  }

  lemma FileAtOptional(name: string, data: Option<string>)
    ensures FileAt(Optional(name, data), Place(name)) == data
  {
  }

  lemma SettingsPlaces(src: Source)
    requires BaseNamed(src)
    ensures forall e <- Settings(src) :: |Place(e.name)| == 3 && Place(e.name)[0] == "etc"
  {
    hide Place, IsBase;
    PlaceOfRedactedConfig();
    forall e | e in src.envs ensures |Place(EnvEntry(e).name)| == 3 && Place(EnvEntry(e).name)[0] == "etc" {
      PlaceOfConfig(e.name + ".redacted");
      assert EnvEntry(e).name == ENV_PREFIX + (e.name + ".redacted");
    }
  }

  lemma SecretPlaces(ctx: Context, src: Source)
    requires Complete(ctx, src) && BaseNamed(src)
    ensures forall e <- SecretFiles(ctx, src) :: |Place(e.name)| == 4 && Place(e.name)[0] == "etc"
  {
    hide Place, IsBase;
    if ctx.encryption {
      forall k | k in src.keys ensures |Place(KeyEntry(k).name)| == 4 && Place(KeyEntry(k).name)[0] == "etc" {
        PlaceOfSecret(k.base);
      }
    }
  }

  lemma DataFound(ctx: Context, src: Source, instructions: string)
    requires Complete(ctx, src) && BaseNamed(src)
    ensures var files := Contents(ctx, src, instructions);
            && FileAt(files, Place(DATABASE)) == src.database && FileAt(files, Place(MAIL_STORE)) == src.mailStore
            && FileAt(files, Place(ATTACHMENTS)) == src.attachments
  {
    hide Place, FileAt, Data, Settings, SecretFiles, Metadata, Contents, BaseNamed;
    var files := Contents(ctx, src, instructions);
    ContentsParts(ctx, src, instructions);
    DataPlaces(src);
    SettingsPlaces(src);
    SecretPlaces(ctx, src);
    PlacesOfMetadata();
    PlaceOfDatabase();
    PlaceOfMailStore();
    PlaceOfAttachments();
    assert "var"[0] != "etc"[0];
    forall place | place in [Place(DATABASE), Place(MAIL_STORE), Place(ATTACHMENTS)]
      ensures FileAt(files, place) == FileAt(Data(src), place)
    {
      var meta := Metadata(ctx, src, instructions);
      FileAtLater(Data(src) + Settings(src) + SecretFiles(ctx, src), meta, place);
      FileAtLater(Data(src) + Settings(src), SecretFiles(ctx, src), place);
      FileAtLater(Data(src), Settings(src), place);
      NotAt(Settings(src), place);
      NotAt(SecretFiles(ctx, src), place);
      NotAt(meta, place);
    }
  }

  lemma ManifestFound(ctx: Context, src: Source, instructions: string)
    requires Complete(ctx, src)
    ensures FileAt(Contents(ctx, src, instructions), Place(MANIFEST))
         == Some(ctx.encode(Manifest(PRODUCT_NAME, FORMAT_VERSION, Names(Payloads(ctx, src)))))
  {
    hide Place, Data, Settings, SecretFiles, Metadata, Contents, Payloads;
    var meta := Metadata(ctx, src, instructions);
    ContentsParts(ctx, src, instructions);
    PlacesOfMetadata();
    assert MANIFEST[0] != INSTRUCTIONS[0] && MANIFEST[0] != CHECKSUMS[0];
    FileAtLater(Data(src) + Settings(src) + SecretFiles(ctx, src), meta, Place(MANIFEST));
    FileAtLater(meta[..1], meta[1..], Place(MANIFEST));
    NotAt(meta[1..], Place(MANIFEST));
    assert meta[..1] + meta[1..] == meta;
  }

  lemma SecretsFound(ctx: Context, src: Source, instructions: string)
    requires Complete(ctx, src) && BaseNamed(src)
    ensures SecretsOf(Contents(ctx, src, instructions)) == SecretsOf(SecretFiles(ctx, src))
  {
    hide Place, SecretsOf, Data, Settings, SecretFiles, Metadata, Contents, BaseNamed;
    var before, meta := Data(src) + Settings(src), Metadata(ctx, src, instructions);
    ContentsParts(ctx, src, instructions);
    DataPlaces(src);
    SettingsPlaces(src);
    PlacesOfMetadata();
    assert "var"[0] != "etc"[0];
    SecretsAmong(before, SecretFiles(ctx, src), meta);
  }

  /** What is staged of a written archive is what the backup directory held. */
  lemma WrittenStaged(codec: Codec, ctx: Context, a: Archive, src: Source, instructions: string)
    requires Sane(ctx) && Complete(ctx, src) && BaseNamed(src) && Packs(codec, ctx, a, src)
    ensures Staged(codec, ctx, Contents(ctx, src, instructions)) == a
  {
    hide Place, FileAt, Contents, Payloads, IsBase;
    DataFound(ctx, src, instructions);
    ManifestFound(ctx, src, instructions);
    SecretsFound(ctx, src, instructions);
    if ctx.encryption {
      SecretsOfKeys(src.keys, a.secrets);
      assert SecretsOf(Keys(src.keys)) == a.secrets;
    }
  }

  /** A backup that is packaged, encrypted, decrypted and unpacked is staged as it was, whatever
      else the key has sealed; and it is valid exactly when its files are within their limits and
      no small one starts like another file's digest. */
  lemma BackupRoundTrip(codec: Codec, ctx: Context, aead: Aead, log: set<Sealing>, nonces: nat -> Nonce,
                        a: Archive, src: Source, instructions: string, size: nat)
    requires Faithful(codec) && Sane(ctx) && Complete(ctx, src) && Packs(codec, ctx, a, src)
    requires GoodNames(ctx, src, instructions) && BaseNamed(src)
    requires var bytes := codec.tar(Tar(Contents(ctx, src, instructions)));
             Ideal(aead, log) && WriterLog(nonces, Chunks(bytes)) <= log
    ensures var entries := EntriesOf(codec, aead, Sealed(codec, ctx, aead, nonces, src, instructions));
            var files := Contents(ctx, src, instructions);
            && entries.Some? && FilesOf(entries.value) == files && Staged(codec, ctx, files) == a
            && (Accepted(ctx, entries.value, size) <==>
                && size <= MAX_TOTAL && (forall e <- files :: |e.data| <= MaxSize(e.name))
                && (forall e <- files :: e.name != CHECKSUMS && Marked(e) ==> e.data == DIGEST_MARK + ctx.digest(e.data)))
  {
    hide OpenEnvelope, Written, Staged, Contents, Accepted, Chunks, Sane, Packs, Complete, GoodNames, BaseNamed,
      MaxSize, Marked, FilesOf, Ideal, WriterLog;
    var files := Contents(ctx, src, instructions);
    RoundTrip(aead, log, nonces, codec.tar(Tar(files)));
    WrittenNamesKept(ctx, src, instructions);
    WrittenStaged(codec, ctx, a, src, instructions);
    WrittenAccepted(ctx, src, instructions, size);
  }

  lemma WrittenNamesKept(ctx: Context, src: Source, instructions: string)
    requires Sane(ctx) && Complete(ctx, src) && GoodNames(ctx, src, instructions)
    ensures FilesOf(Tar(Contents(ctx, src, instructions))) == Contents(ctx, src, instructions)
  {
    hide PlainName, Known, Contents, Complete, GoodNames;
    EverythingFiled(ctx, src, instructions);
    FilesAsWritten(Contents(ctx, src, instructions));
  }

  // ---------------------------------------------------------------- from the live state and back

  /** The key files of a backup directory, one for each registered path. */
  function KeyFilesOf(svc: Service, secrets: Tree): seq<KeyFile> {
    seq(|svc.keyPaths|, i requires 0 <= i < |svc.keyPaths| =>
      var b := svc.base(svc.keyPaths[i]);
      KeyFile(b, if b in secrets then Some(secrets[b]) else None))
  }

  lemma SnapshotKeysPacked(svc: Service, live: LiveState, a: Archive)
    requires svc.KeysStaged(live.keys, a.secrets, |svc.keyPaths|) && "" !in svc.keyPaths
    ensures KeysPacked(a.secrets, KeyFilesOf(svc, a.secrets))
  {
    var keys := KeyFilesOf(svc, a.secrets);
    forall i | 0 <= i < |keys| ensures keys[i].base in a.secrets {
      assert svc.Named(svc.base(svc.keyPaths[i]), |svc.keyPaths|);
    }
    forall b | b in a.secrets ensures exists k <- keys :: k.base == b {
      var i :| 0 <= i < |svc.keyPaths| && svc.keyPaths[i] != "" && svc.base(svc.keyPaths[i]) == b;
      assert keys[i] in keys;
    }
  }

  /** The backup directory after a snapshot. */
  ghost predicate SnapshotIn(svc: Service, codec: Codec, ctx: Context, a: Archive, src: Source) {
    && ctx.encryption == svc.encryption && "" !in svc.keyPaths && src.database == a.database
    && src.mailStore.Some? && codec.unpack(src.mailStore.value) == a.mail
    && src.attachments.Some? && codec.unpack(src.attachments.value) == a.attachments
    && src.keys == KeyFilesOf(svc, a.secrets)
  }

  lemma SnapshotPacked(svc: Service, codec: Codec, ctx: Context, live: LiveState, f: RestoreFaults, a: Archive, src: Source)
    requires svc.IsSnapshot(live, f, a) && SnapshotIn(svc, codec, ctx, a, src)
    ensures Complete(ctx, src) && Packs(codec, ctx, a, src)
  {
    hide Walked;
    if ctx.encryption {
      SnapshotKeysPacked(svc, live, a);
    }
  }

  /** Files of different names come from key paths of different base names. */
  lemma OwnNamesAgree(svc: Service, ctx: Context, keys: Tree, a: Archive, src: Source, instructions: string)
    requires ctx.encryption && Complete(ctx, src) && GoodNames(ctx, src, instructions)
    requires src.keys == KeyFilesOf(svc, a.secrets)
    ensures svc.SameNamesAgree(keys)
  {
    hide Complete, PlainName, HasSuffix, Contents;
    var files := Contents(ctx, src, instructions);
    forall p, q | p in svc.keyPaths && q in svc.keyPaths && svc.base(p) == svc.base(q) ensures p == q {
      var i :| 0 <= i < |svc.keyPaths| && svc.keyPaths[i] == p;
      var j :| 0 <= j < |svc.keyPaths| && svc.keyPaths[j] == q;
      var m := KeyAt(ctx, src, instructions, i);
      var n := KeyAt(ctx, src, instructions, j);
      assert files[m].name == files[n].name;
    }
  }

  lemma KeyAt(ctx: Context, src: Source, instructions: string, i: nat) returns (m: nat)
    requires ctx.encryption && Complete(ctx, src) && i < |src.keys|
    ensures m == |Data(src) + Settings(src)| + i && m < |Contents(ctx, src, instructions)|
    ensures Contents(ctx, src, instructions)[m].name == SECRETS_PREFIX + src.keys[i].base
  {
    hide Contents, Data, Settings, Metadata;
    ContentsParts(ctx, src, instructions);
    m := |Data(src) + Settings(src)| + i;
    assert Contents(ctx, src, instructions)[m] == KeyEntry(src.keys[i]);
  }

  /** A whole snapshot of a live state, packaged, encrypted, opened, unpacked and restored, brings
      it back: the database, every message, every attachment and, with encryption, every
      registered key. */
  lemma SnapshotReturns(svc: Service, codec: Codec, ctx: Context, aead: Aead, log: set<Sealing>, nonces: nat -> Nonce,
                        live: LiveState, f: RestoreFaults, a: Archive, src: Source, instructions: string, after: LiveState)
    requires Faithful(codec) && Sane(ctx) && SnapshotIn(svc, codec, ctx, a, src)
    requires svc.SnapshotTaken(live, f) && svc.IsSnapshot(live, f, a) && svc.WholeSnapshot(live, a)
    requires Complete(ctx, src) && GoodNames(ctx, src, instructions) && BaseNamed(src)
    requires var bytes := codec.tar(Tar(Contents(ctx, src, instructions)));
             Ideal(aead, log) && WriterLog(nonces, Chunks(bytes)) <= log
    ensures var entries := EntriesOf(codec, aead, Sealed(codec, ctx, aead, nonces, src, instructions));
            && entries.Some?
            && (svc.Restored(Staged(codec, ctx, FilesOf(entries.value)), after) ==>
                  && after.database == live.database && Files(after.mail) == Matching(Files(live.mail), MESSAGES)
                  && Files(after.attachments) == Files(live.attachments)
                  && (svc.encryption ==> svc.KeysBack(live.keys, after.keys)))
  {
    hide OpenEnvelope, Sealed, EntriesOf, Staged, Contents, Accepted, Chunks, Sane, Packs, Complete, GoodNames, BaseNamed,
      FilesOf, Ideal, WriterLog, Walked, Matching, Service.KeysStaged, MaxSize, Marked;
    SnapshotPacked(svc, codec, ctx, live, f, a, src);
    BackupRoundTrip(codec, ctx, aead, log, nonces, a, src, instructions, 0);
    if svc.encryption {
      OwnNamesAgree(svc, ctx, live.keys, a, src, instructions);
      svc.StagedKeyValues(live.keys, a.secrets);
    }
  }

  // ---------------------------------------------------------------- what an accepted archive lacks

  lemma {:induction false} SplitInjective(a: string, b: string)
    requires Split(a, '/') == Split(b, '/')
    ensures a == b
  {
    if a != "" && b != "" {
      if a[0] == '/' || b[0] == '/' {
        assert a[0] == b[0];
        assert Split(a, '/')[1..] == Split(a[1..], '/') && Split(b, '/')[1..] == Split(b[1..], '/');
      } else {
        assert a[0] == Split(a, '/')[0][0] == Split(b, '/')[0][0] == b[0];
        assert Split(a[1..], '/') == [Split(a, '/')[0][1..]] + Split(a, '/')[1..];
        assert Split(b[1..], '/') == [Split(b, '/')[0][1..]] + Split(b, '/')[1..];
      }
      SplitInjective(a[1..], b[1..]);
    }
  }

  lemma {:induction false} StepsKept(parts: seq<string>)
    requires forall p <- parts :: p != "" && p != "."
    ensures Steps(parts) == parts
  {
    if parts != [] {
      assert parts[0] in parts;
      forall p | p in parts[1..] ensures p in parts {
      }
      StepsKept(parts[1..]);
    }
  }

  lemma ProperPlaces(a: string, b: string)
    requires Proper(a) && Proper(b)
    ensures Place(a) == Place(b) <==> a == b
  {
    StepsKept(Split(a, '/'));
    StepsKept(Split(b, '/'));
    if Split(a, '/') == Split(b, '/') {
      SplitInjective(a, b);
    }
  }

  function LastNamed(files: seq<Entry>, name: string): Option<string> {
    if files == [] then None
    else if files[|files| - 1].name == name then Some(files[|files| - 1].data)
    else LastNamed(files[..|files| - 1], name)
  }

  lemma {:induction false} FoundByName(files: seq<Entry>, name: string)
    requires Proper(name) && forall e <- files :: Proper(e.name)
    ensures FileAt(files, Place(name)) == LastNamed(files, name)
    ensures LastNamed(files, name).Some? <==> HasFile(files, name)
    ensures LastNamed(files, name).Some? ==> Entry(name, LastNamed(files, name).value) in files
  {
    hide Place, Proper;
    if files != [] {
      var n := |files| - 1;
      FoundByName(files[..n], name);
      ProperPlaces(files[n].name, name);
      assert files == files[..n] + [files[n]];
    }
  }

  lemma {:induction false} ManifestsGood(ctx: Context, es: seq<TarEntry>)
    requires EntriesOk(ctx, es)
    ensures forall e <- FilesOf(es) :: e.name == MANIFEST ==> GoodManifest(ctx, e.data)
  {
    hide CleanName, Allowed, MaxSize;
    if es != [] {
      var n := |es| - 1;
      forall i | 0 <= i < n ensures EntryOk(ctx, es[..n][i], FilesOf(es[..n][..i])) {
        assert es[..n][..i] == es[..i];
      }
      ManifestsGood(ctx, es[..n]);
      assert EntryOk(ctx, es[n], FilesOf(es[..n]));
    }
  }

  /** Nothing goes wrong in the activation itself. */
  predicate Smooth(svc: Service, f: ActivationFaults) {
    && f.manifest && f.database.DatabaseOk? && f.mail.DirOk? && f.attachments.DirOk? && f.permissions
    && f.keysReplaced >= |svc.keyPaths|
  }

  /** The verdict does not say that an archive can be activated: exactly the accepted archives that
      hold a database and readable mail and attachments can. */
  lemma ActivatesExactly(svc: Service, codec: Codec, ctx: Context, es: seq<TarEntry>, size: nat, f: ActivationFaults)
    requires Accepted(ctx, es, size) && Smooth(svc, f) && forall e <- FilesOf(es) :: Proper(e.name)
    ensures var files := FilesOf(es);
            svc.Activates(Staged(codec, ctx, files), f) <==>
            && HasFile(files, DATABASE) && Unpacked(codec, LastNamed(files, MAIL_STORE)).Some?
            && Unpacked(codec, LastNamed(files, ATTACHMENTS)).Some?
  {
    hide Place, Proper, FileAt, LastNamed, FilesOf, SecretsOf;
    var files := FilesOf(es);
    PlacesOfMetadata();
    PlaceOfDatabase();
    PlaceOfMailStore();
    PlaceOfAttachments();
    FoundByName(files, MANIFEST);
    FoundByName(files, DATABASE);
    FoundByName(files, MAIL_STORE);
    FoundByName(files, ATTACHMENTS);
    ManifestsGood(ctx, es);
  }

  /** A manifest and a redacted settings file alone are a valid archive that cannot be activated. */
  lemma AcceptedInParts(svc: Service, codec: Codec, ctx: Context, word: string, size: nat, f: ActivationFaults)
    requires Sane(ctx) && IsWord(word) && |word| < 1024 && size <= MAX_TOTAL && Smooth(svc, f)
    requires |MarkedFiles(ctx, word)[0].data| <= MAX_METADATA && |Render(MarkedLines(ctx, word))| <= MAX_METADATA
    ensures var files := WithChecksums(MarkedFiles(ctx, word), MarkedLines(ctx, word));
            && Accepted(ctx, Tar(files), size) && FilesOf(Tar(files)) == files
            && !svc.Activates(Staged(codec, ctx, files), f)
  {
    hide *;
    var described, lines := MarkedFiles(ctx, word), MarkedLines(ctx, word);
    MarkedAccepted(ctx, word, size);
    MarkedShaped(ctx, word);
    ShapedFiles(ctx, described, lines);
    MarkedNames(ctx, word);
    ActivatesExactly(svc, codec, ctx, Tar(WithChecksums(described, lines)), size, f);
  }

  lemma MarkedProper()
    ensures Proper(MARKED_FILE)
  {
    hide Place, Proper;
    PlaceOfConfig("a.env.redacted");
    assert MARKED_FILE == ENV_PREFIX + "a.env.redacted";
  }

  lemma MarkedNames(ctx: Context, word: string)
    ensures var files := WithChecksums(MarkedFiles(ctx, word), MarkedLines(ctx, word));
            !HasFile(files, DATABASE) && forall e <- files :: Proper(e.name)
  {
    hide Render, MarkedLines, Proper, Place;
    PlacesOfMetadata();
    MarkedProper();
    assert DATABASE[0] == 'v' && MANIFEST[0] == 'b' && MARKED_FILE[0] == 'e' && CHECKSUMS[0] == 'c';
    var described, lines := MarkedFiles(ctx, word), MarkedLines(ctx, word);
    assert WithChecksums(described, lines) == [described[0], described[1], Entry(CHECKSUMS, Render(lines))];
  }
}
