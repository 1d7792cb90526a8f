/** The canonical backup archive: the entries the writer puts into it, the strict validator,
    and what the validator's verdict is worth. Entry contents are strings of bytes. */
module ArchiveFormat {
  import opened Collections
  import opened Outcomes
  import opened Text

  datatype Kind = Regular | Directory | Link

  datatype TarEntry = TarEntry(kind: Kind, name: string, data: string)

  /** backup.json as far as the validator reads it. */
  datatype Manifest = Manifest(product: string, version: int, items: seq<string>)

  const PRODUCT_NAME := "Orvix Enterprise Mail"
  const FORMAT_VERSION := 1

  const MANIFEST := "backup.json"
  const CHECKSUMS := "checksums.txt"
  const INSTRUCTIONS := "RESTORE_INSTRUCTIONS.txt"
  const DATABASE := "var/lib/orvix/orvix.db"
  const MAIL_STORE := "var/lib/orvix/mailstore.tar.gz"
  const ATTACHMENTS := "var/lib/orvix/attachments.tar.gz"
  const CONFIG := "etc/orvix/orvix.yaml.redacted"
  const BASE_NAMES: set<string> := {MANIFEST, CHECKSUMS, INSTRUCTIONS, DATABASE, MAIL_STORE, ATTACHMENTS, CONFIG}

  const ENV_PREFIX := "etc/orvix/"
  const ENV_SUFFIX := ".env.redacted"
  const SECRETS_PREFIX := "etc/orvix/secrets/"
  const DIGEST_MARK := "sha256:"

  const MAX_METADATA := 10 * 1024 * 1024
  const MAX_DATABASE := 2 * 1024 * 1024 * 1024
  const MAX_MAIL_STORE := 10 * 1024 * 1024 * 1024
  const MAX_TOTAL := 50 * 1024 * 1024 * 1024

  /** What the service brings along: whether archives are encrypted, the hex digest, and the
      manifest's JSON form. */
  datatype Context = Context(encryption: bool, digest: string -> string,
                             encode: Manifest -> string, decode: string -> Option<Manifest>)

  /** Digests are words, and manifests read back and do not start like a digest. */
  ghost predicate Sane(ctx: Context) {
    && (forall d :: IsWord(ctx.digest(d)))
    && (forall m :: ctx.decode(ctx.encode(m)) == Some(m) && !(DIGEST_MARK <= ctx.encode(m)))
  }

  predicate HasSuffix(s: string, suffix: string) {
    |suffix| <= |s| && s[|s| - |suffix|..] == suffix
  }

  function Slashed(name: string): (r: string)
    ensures |r| == |name|
  {
    seq(|name|, i requires 0 <= i < |name| => if name[i] == '\\' then '/' else name[i])
  }

  /** The name under which an entry is filed: forward slashes, no leading "./". */
  function CleanName(name: string): string {
    var s := Slashed(name);
    if "./" <= s then s[2..] else s
  }

  function MaxSize(name: string): nat {
    if name == DATABASE then MAX_DATABASE else if HasSuffix(name, ".tar.gz") then MAX_MAIL_STORE else MAX_METADATA
  }

  // ---------------------------------------------------------------- the checksum list

  /** One line of checksums.txt that has at least two words. */
  datatype Line = Line(digest: string, path: string)

  function ParseLine(text: string): seq<Line> {
    var parts := Fields(TrimSpace(text));
    if |parts| >= 2 then [Line(parts[0], parts[1])] else []
  }

  function ParseLines(texts: seq<string>): seq<Line> {
    if texts == [] then [] else ParseLine(texts[0]) + ParseLines(texts[1..])
  }

  function ChecksumLines(text: string): seq<Line> {
    ParseLines(Split(text, '\n'))
  }

  function Render(lines: seq<Line>): string {
    if lines == [] then "" else lines[0].digest + "  " + lines[0].path + ['\n'] + Render(lines[1..])
  }

  /** The list the writer prints is the list the validator reads. */
  lemma {:induction false} ChecksumsReadBack(lines: seq<Line>)
    requires forall l <- lines :: IsWord(l.digest) && IsWord(l.path)
    ensures ChecksumLines(Render(lines)) == lines
  {
    if lines == [] {
      assert Split("", '\n') == [""] && [""][1..] == [];
      assert TrimSpace("") == "" && Fields("") == [];
      assert ParseLine("") == [];
      assert ParseLines([""]) == ParseLine("") + ParseLines([]);
    } else {
      var l := lines[0];
      var text := l.digest + "  " + l.path;
      assert '\n' !in text by {
        assert IsSpace('\n');
        assert text == l.digest + "  " + l.path;
      }
      SplitOff(text, Render(lines[1..]), '\n');
      FieldsOfPair(l.digest, l.path);
      FieldsOfTrimmed(text);
      ChecksumsReadBack(lines[1..]);
    }
  }

  /** The digest listed for a path: the last line wins. */
  function Listed(lines: seq<Line>, path: string): Option<string> {
    if lines == [] then None
    else if lines[|lines| - 1].path == path then Some(lines[|lines| - 1].digest)
    else Listed(lines[..|lines| - 1], path)
  }

  lemma {:induction false} ParseLinesSnoc(texts: seq<string>, text: string)
    ensures ParseLines(texts + [text]) == ParseLines(texts) + ParseLine(text)
  {
    hide ParseLine;
    if texts == [] {
      assert [text][1..] == [] && ParseLines([text]) == ParseLine(text) + ParseLines([]);
    } else {
      ParseLinesSnoc(texts[1..], text);
      assert (texts + [text])[1..] == texts[1..] + [text];
    }
  }

  // ---------------------------------------------------------------- what is accepted

  /** A file of the archive under its clean name. */
  datatype Entry = Entry(name: string, data: string)

  function FilesOf(es: seq<TarEntry>): seq<Entry> {
    if es == [] then []
    else
      var last := es[|es| - 1];
      FilesOf(es[..|es| - 1]) + if last.kind == Regular then [Entry(CleanName(last.name), last.data)] else []
  }

  predicate GoodManifest(ctx: Context, data: string) {
    var m := ctx.decode(data);
    m.Some? && m.value.product == PRODUCT_NAME && m.value.version == FORMAT_VERSION
  }

  /** Names that are always allowed, and names an earlier manifest lists. */
  predicate Allowed(ctx: Context, name: string, earlier: seq<Entry>) {
    || name in BASE_NAMES
    || (ENV_PREFIX <= name && HasSuffix(name, ENV_SUFFIX))
    || (ctx.encryption && SECRETS_PREFIX <= name)
    || InEarlierManifest(ctx, name, earlier)
  }

  predicate InEarlierManifest(ctx: Context, name: string, earlier: seq<Entry>) {
    exists e <- earlier :: e.name == MANIFEST && ctx.decode(e.data).Some? && name in ctx.decode(e.data).value.items
  }

  predicate EntryOk(ctx: Context, e: TarEntry, earlier: seq<Entry>) {
    var name := CleanName(e.name);
    match e.kind
    case Link => false
    case Directory => true
    case Regular =>
      && !("/" <= Slashed(e.name)) && ".." !in Split(Slashed(e.name), '/')
      && Allowed(ctx, name, earlier) && |e.data| <= MaxSize(name)
      && (name == MANIFEST ==> GoodManifest(ctx, e.data))
  }

  ghost predicate EntriesOk(ctx: Context, es: seq<TarEntry>) {
    forall i :: 0 <= i < |es| ==> EntryOk(ctx, es[i], FilesOf(es[..i]))
  }

  /** The digest the validator computes: of the content, except that a small file whose
      content starts with the digest mark is taken at its word. */
  function Got(ctx: Context, e: Entry): string {
    if MaxSize(e.name) <= MAX_METADATA && DIGEST_MARK <= e.data then e.data[|DIGEST_MARK|..] else ctx.digest(e.data)
  }

  function LastChecksums(files: seq<Entry>): seq<Line> {
    if files == [] then []
    else if files[|files| - 1].name == CHECKSUMS then ChecksumLines(files[|files| - 1].data)
    else LastChecksums(files[..|files| - 1])
  }

  ghost predicate Covered(ctx: Context, files: seq<Entry>) {
    forall e <- files :: e.name != CHECKSUMS ==> Listed(LastChecksums(files), e.name) == Some(Got(ctx, e))
  }

  ghost predicate Present(files: seq<Entry>) {
    forall c <- files :: c.name == CHECKSUMS ==>
      AllThere(files, ChecksumLines(c.data))
  }

  predicate HasFile(files: seq<Entry>, name: string) {
    exists e <- files :: e.name == name
  }

  /** What a valid verdict asserts. */
  ghost predicate Accepted(ctx: Context, es: seq<TarEntry>, size: nat) {
    var files := FilesOf(es);
    && EntriesOk(ctx, es) && HasFile(files, MANIFEST) && HasFile(files, CHECKSUMS)
    && Covered(ctx, files) && Present(files) && size <= MAX_TOTAL
  }

  // ---------------------------------------------------------------- the validator

  datatype Problem = LinkEntry | AbsolutePath | Traversal | UnknownEntry | TooLarge | BadManifest | BadProduct | BadVersion
                   | NoManifest | NoChecksums | MissingChecksum | ChecksumMismatch | AbsentFile | ArchiveTooLarge

  /** What the validator keeps of a file: small files whole, large ones as marked digests. */
  function Kept(ctx: Context, e: Entry): Entry {
    if MaxSize(e.name) <= MAX_METADATA then e else e.(data := DIGEST_MARK + ctx.digest(e.data))
  }

  function KeptAll(ctx: Context, files: seq<Entry>): (kept: seq<Entry>)
    ensures |kept| == |files| && forall i :: 0 <= i < |files| ==> kept[i] == Kept(ctx, files[i])
  {
    seq(|files|, i requires 0 <= i < |files| => Kept(ctx, files[i]))
  }

  /** The first pass over one entry: either the entry is in order, or a problem is recorded. */
  method CheckEntry(ctx: Context, e: TarEntry, allowed: set<string>, ghost earlier: seq<Entry>)
    returns (problems: seq<Problem>, kept: Option<Entry>, items: set<string>)
    requires forall n :: n in allowed <==> n in BASE_NAMES || InEarlierManifest(ctx, n, earlier)
    ensures problems == [] <==> EntryOk(ctx, e, earlier)
    ensures problems == [] ==> kept == if e.kind == Regular then Some(Kept(ctx, Entry(CleanName(e.name), e.data))) else None
    ensures forall n :: n in items <==> kept.Some? && InEarlierManifest(ctx, n, [kept.value])
  {
    problems, kept, items := [], None, {};
    if e.kind == Link { return [LinkEntry], None, {}; }
    if e.kind == Directory { return; }
    var name := Slashed(e.name);
    if "/" <= name { return [AbsolutePath], None, {}; }
    if ".." in Split(name, '/') {
      problems := [Traversal];
    }
    var clean := CleanName(e.name);
    if clean !in allowed {
      var redactedEnv := ENV_PREFIX <= clean && HasSuffix(clean, ENV_SUFFIX);
      var encryptedSecret := ctx.encryption && SECRETS_PREFIX <= clean;
      if !redactedEnv && !encryptedSecret { return problems + [UnknownEntry], None, {}; }
    }
    var maxSize := MaxSize(clean);
    if |e.data| > maxSize { return problems + [TooLarge], None, {}; }
    var data := if maxSize <= MAX_METADATA then e.data else DIGEST_MARK + ctx.digest(e.data);
    kept := Some(Entry(clean, data));
    if clean == MANIFEST {
      var m := ctx.decode(data);
      if m.None? { return problems + [BadManifest], kept, {}; }
      if m.value.product != PRODUCT_NAME {
        problems := problems + [BadProduct];
      }
      if m.value.version != FORMAT_VERSION {
        problems := problems + [BadVersion];
      }
      items := SetOf(m.value.items);
    }
  }

  /** The first pass: every entry is looked at once, in archive order. */
  method ReadEntries(ctx: Context, es: seq<TarEntry>) returns (problems: seq<Problem>, kept: seq<Entry>)
    ensures problems == [] <==> EntriesOk(ctx, es)
    ensures problems == [] ==> kept == KeptAll(ctx, FilesOf(es))
  {
    hide EntryOk, InEarlierManifest, CleanName, Kept;
    problems, kept := [], [];
    var allowed := BASE_NAMES;
    NothingKept(ctx);
    for i := 0 to |es|
      invariant problems == [] <==> EntriesOk(ctx, es[..i])
      invariant problems == [] ==> kept == KeptAll(ctx, FilesOf(es[..i]))
      invariant forall n :: n in allowed <==> n in BASE_NAMES || InEarlierManifest(ctx, n, kept)
    {
      var found, file, items := CheckEntry(ctx, es[i], allowed, kept);
      NextEntry(ctx, es, i);
      ghost var before, was := kept, allowed;
      problems := problems + found;
      kept := kept + if file.Some? then [file.value] else [];
      allowed := allowed + items;
      forall n ensures n in allowed <==> n in BASE_NAMES || InEarlierManifest(ctx, n, kept) {
        MoreKept(ctx, n, before, if file.Some? then [file.value] else []);
      }
    }
    assert es[..|es|] == es;
  }

  lemma NothingKept(ctx: Context)
    ensures forall n :: !InEarlierManifest(ctx, n, [])
    ensures KeptAll(ctx, []) == []
  {
  }

  lemma MoreKept(ctx: Context, n: string, a: seq<Entry>, b: seq<Entry>)
    ensures InEarlierManifest(ctx, n, a + b) <==> InEarlierManifest(ctx, n, a) || InEarlierManifest(ctx, n, b)
  {
  }

  lemma OneMoreOk(ctx: Context, es: seq<TarEntry>, i: nat)
    requires i < |es|
    ensures EntriesOk(ctx, es[..i + 1]) <==> EntriesOk(ctx, es[..i]) && EntryOk(ctx, es[i], FilesOf(es[..i]))
  {
    hide EntryOk, FilesOf;
    var longer, shorter := es[..i + 1], es[..i];
    forall j | 0 <= j <= i
      ensures longer[j] == es[j] && longer[..j] == es[..j] && (j < i ==> shorter[j] == es[j] && shorter[..j] == es[..j])
    {
    }
    if EntriesOk(ctx, longer) {
      assert EntryOk(ctx, longer[i], FilesOf(longer[..i]));
      forall j | 0 <= j < i ensures EntryOk(ctx, shorter[j], FilesOf(shorter[..j])) {
        assert EntryOk(ctx, longer[j], FilesOf(longer[..j]));
      }
    }
  }

  lemma SameAsKept(ctx: Context, e: TarEntry, files: seq<Entry>)
    ensures EntryOk(ctx, e, files) <==> EntryOk(ctx, e, KeptAll(ctx, files))
  {
  }

  lemma NextEntry(ctx: Context, es: seq<TarEntry>, i: nat)
    requires i < |es|
    ensures EntriesOk(ctx, es[..i + 1]) <==> EntriesOk(ctx, es[..i]) && EntryOk(ctx, es[i], KeptAll(ctx, FilesOf(es[..i])))
    ensures KeptAll(ctx, FilesOf(es[..i + 1])) == KeptAll(ctx, FilesOf(es[..i]))
            + if es[i].kind == Regular then [Kept(ctx, Entry(CleanName(es[i].name), es[i].data))] else []
  {
    hide EntryOk, EntriesOk, CleanName;
    OneMoreOk(ctx, es, i);
    SameAsKept(ctx, es[i], FilesOf(es[..i]));
    assert es[..i + 1][..i] == es[..i];
  }

  /** Reads a checksum list into a map; a later line for a path replaces an earlier one. */
  method ParseChecksums(text: string) returns (checksums: map<string, string>)
    ensures forall p :: Listed(ChecksumLines(text), p) == if p in checksums then Some(checksums[p]) else None
  {
    hide Fields, TrimSpace, Split;
    checksums := map[];
    var texts := Split(text, '\n');
    assert texts[..0] == [] && ParseLines([]) == [];
    for i := 0 to |texts|
      invariant forall p :: Listed(ParseLines(texts[..i]), p) == if p in checksums then Some(checksums[p]) else None
    {
      assert texts[..i + 1] == texts[..i] + [texts[i]];
      ParseLinesSnoc(texts[..i], texts[i]);
      ghost var lines := ParseLines(texts[..i]);
      var parts := Fields(TrimSpace(texts[i]));
      if |parts| >= 2 {
        checksums := checksums[parts[1] := parts[0]];
        assert (lines + [Line(parts[0], parts[1])])[..|lines|] == lines;
      } else {
        assert lines + [] == lines;
      }
    }
    assert texts[..|texts|] == texts;
  }

  lemma {:induction false} LastChecksumsKept(ctx: Context, files: seq<Entry>)
    ensures LastChecksums(KeptAll(ctx, files)) == LastChecksums(files)
  {
    assert MaxSize(CHECKSUMS) == MAX_METADATA;
    if files != [] {
      LastChecksumsKept(ctx, files[..|files| - 1]);
      assert KeptAll(ctx, files)[..|files| - 1] == KeptAll(ctx, files[..|files| - 1]);
    }
  }

  /** The digest a kept file stands for. */
  function KeptDigest(ctx: Context, e: Entry): string {
    if DIGEST_MARK <= e.data then e.data[|DIGEST_MARK|..] else ctx.digest(e.data)
  }

  ghost predicate KeptCovered(ctx: Context, kept: seq<Entry>) {
    forall j :: 0 <= j < |kept| && kept[j].name != CHECKSUMS ==>
      Listed(LastChecksums(kept), kept[j].name) == Some(KeptDigest(ctx, kept[j]))
  }

  lemma CoveredAsKept(ctx: Context, files: seq<Entry>)
    ensures KeptCovered(ctx, KeptAll(ctx, files)) <==> Covered(ctx, files)
  {
    hide LastChecksums, Listed;
    LastChecksumsKept(ctx, files);
    KeptNames(ctx, files);
    var kept := KeptAll(ctx, files);
    forall j | 0 <= j < |files| ensures KeptDigest(ctx, kept[j]) == Got(ctx, files[j]) {
      assert (DIGEST_MARK + ctx.digest(files[j].data))[|DIGEST_MARK|..] == ctx.digest(files[j].data);
    }
    if KeptCovered(ctx, kept) {
      forall e | e in files && e.name != CHECKSUMS ensures Listed(LastChecksums(files), e.name) == Some(Got(ctx, e)) {
        var j :| 0 <= j < |files| && files[j] == e;
        assert kept[j].name == e.name;
      }
    }
  }

  /** Every file but the list itself has the digest its last line gives. */
  method VerifyDigests(ctx: Context, kept: seq<Entry>) returns (problems: seq<Problem>)
    requires HasFile(kept, CHECKSUMS)
    ensures problems == [] <==> KeptCovered(ctx, kept)
  {
    hide ChecksumLines, KeptDigest, Listed, Fields;
    var checksums: map<string, string> := map[];
    ghost var listed := false;
    for i := 0 to |kept|
      invariant listed <==> exists j :: 0 <= j < i && kept[j].name == CHECKSUMS
      invariant listed ==> forall p :: Listed(LastChecksums(kept[..i]), p) == if p in checksums then Some(checksums[p]) else None
    {
      assert kept[..i + 1][..i] == kept[..i];
      if kept[i].name == CHECKSUMS {
        checksums := ParseChecksums(kept[i].data);
        listed := true;
      }
    }
    assert kept[..|kept|] == kept;
    problems := [];
    for i := 0 to |kept|
      invariant problems == [] <==> forall j :: 0 <= j < i && kept[j].name != CHECKSUMS ==>
                  Listed(LastChecksums(kept), kept[j].name) == Some(KeptDigest(ctx, kept[j]))
    {
      var e := kept[i];
      if e.name != CHECKSUMS {
        if e.name !in checksums {
          problems := problems + [MissingChecksum];
        } else if KeptDigest(ctx, e) != checksums[e.name] {
          problems := problems + [ChecksumMismatch];
        }
      }
    }
  }

  lemma KeptNames(ctx: Context, files: seq<Entry>)
    ensures forall i :: 0 <= i < |files| ==> KeptAll(ctx, files)[i].name == files[i].name
    ensures forall i :: 0 <= i < |files| && files[i].name == CHECKSUMS ==> KeptAll(ctx, files)[i] == files[i]
    ensures forall n :: HasFile(KeptAll(ctx, files), n) <==> HasFile(files, n)
  {
  }

  /** No checksum line names a file that is not there. */
  method VerifyPresence(kept: seq<Entry>) returns (problems: seq<Problem>)
    ensures problems == [] <==> Present(kept)
  {
    hide Fields, TrimSpace, Split, HasFile;
    problems := [];
    for i := 0 to |kept|
      invariant problems == [] <==>
                forall j :: 0 <= j < i && kept[j].name == CHECKSUMS ==> AllThere(kept, ChecksumLines(kept[j].data))
    {
      if kept[i].name == CHECKSUMS {
        var texts := Split(kept[i].data, '\n');
        ghost var before := problems;
        assert texts[..0] == [] && ParseLines([]) == [];
        for k := 0 to |texts|
          invariant problems == [] <==> before == [] && AllThere(kept, ParseLines(texts[..k]))
        {
          assert texts[..k + 1] == texts[..k] + [texts[k]];
          ParseLinesSnoc(texts[..k], texts[k]);
          var parts := Fields(TrimSpace(texts[k]));
          if |parts| >= 2 && parts[1] != CHECKSUMS && !HasFile(kept, parts[1]) {
            problems := problems + [AbsentFile];
          }
        }
        assert texts[..|texts|] == texts;
      }
    }
  }

  predicate AllThere(files: seq<Entry>, lines: seq<Line>) {
    forall l <- lines :: l.path == CHECKSUMS || HasFile(files, l.path)
  }

  /** The strict validator: valid exactly when the archive is acceptable. */
  method ValidateArchive(ctx: Context, es: seq<TarEntry>, size: nat) returns (valid: bool, problems: seq<Problem>)
    ensures valid == (problems == [])
    ensures valid <==> Accepted(ctx, es, size)
  {
    hide EntriesOk, Covered, KeptCovered, Present, HasFile;
    var kept;
    problems, kept := ReadEntries(ctx, es);
    if !HasFile(kept, MANIFEST) {
      problems := problems + [NoManifest];
    }
    if HasFile(kept, CHECKSUMS) {
      var wrong := VerifyDigests(ctx, kept);
      var absent := VerifyPresence(kept);
      problems := problems + wrong + absent;
    } else {
      problems := problems + [NoChecksums];
    }
    if size > MAX_TOTAL {
      problems := problems + [ArchiveTooLarge];
    }
    valid := problems == [];
    CoveredAsKept(ctx, FilesOf(es));
    KeptNames(ctx, FilesOf(es));
    PresentAsKept(ctx, FilesOf(es));
  }

  lemma PresentAsKept(ctx: Context, files: seq<Entry>)
    ensures Present(KeptAll(ctx, files)) <==> Present(files)
  {
    hide ChecksumLines, HasFile;
    KeptNames(ctx, files);
    var kept := KeptAll(ctx, files);
    if Present(kept) {
      forall c | c in files && c.name == CHECKSUMS ensures AllThere(files, ChecksumLines(c.data)) {
        var j :| 0 <= j < |files| && files[j] == c;
        assert kept[j] == c;
        assert AllThere(kept, ChecksumLines(c.data));
      }
    }
    if Present(files) {
      forall c | c in kept && c.name == CHECKSUMS ensures AllThere(kept, ChecksumLines(c.data)) {
        var j :| 0 <= j < |files| && kept[j] == c;
        assert AllThere(files, ChecksumLines(files[j].data));
      }
    }
  }

  // ---------------------------------------------------------------- what a valid verdict is worth

  lemma {:induction false} ListedIsALine(lines: seq<Line>, path: string)
    ensures match Listed(lines, path)
            case Some(d) => Line(d, path) in lines
            case None => forall l <- lines :: l.path != path
  {
    if lines != [] {
      ListedIsALine(lines[..|lines| - 1], path);
      assert lines == lines[..|lines| - 1] + [lines[|lines| - 1]];
    }
  }

  lemma {:induction false} LastChecksumsOfAFile(files: seq<Entry>)
    requires HasFile(files, CHECKSUMS)
    ensures exists c <- files :: c.name == CHECKSUMS && LastChecksums(files) == ChecksumLines(c.data)
  {
    hide ChecksumLines;
    var n := |files| - 1;
    if files[n].name != CHECKSUMS {
      assert files == files[..n] + [files[n]];
      LastChecksumsOfAFile(files[..n]);
    }
  }

  /** In an accepted archive files and checksum lines name each other, and a file's listed
      digest is its true one exactly when the file did not write its own. */
  lemma ValidVerdict(ctx: Context, es: seq<TarEntry>, size: nat)
    requires Accepted(ctx, es, size)
    ensures forall l <- LastChecksums(FilesOf(es)) :: l.path == CHECKSUMS || HasFile(FilesOf(es), l.path)
    ensures forall e <- FilesOf(es) :: e.name != CHECKSUMS ==>
              var listed := Listed(LastChecksums(FilesOf(es)), e.name);
              && listed.Some? && Line(listed.value, e.name) in LastChecksums(FilesOf(es))
              && (listed.value == ctx.digest(e.data) <==> (Marked(e) ==> e.data == DIGEST_MARK + ctx.digest(e.data)))
  {
    hide EntriesOk, ChecksumLines, LastChecksums;
    var files := FilesOf(es);
    LastChecksumsOfAFile(files);
    forall e | e in files && e.name != CHECKSUMS
      ensures var listed := Listed(LastChecksums(files), e.name);
              && listed.Some? && Line(listed.value, e.name) in LastChecksums(files)
              && (listed.value == ctx.digest(e.data) <==> (Marked(e) ==> e.data == DIGEST_MARK + ctx.digest(e.data)))
    {
      ListedIsALine(LastChecksums(files), e.name);
      GotOwn(ctx, e);
    }
  }

  /** A small file that starts like a kept digest. */
  predicate Marked(e: Entry) {
    MaxSize(e.name) <= MAX_METADATA && DIGEST_MARK <= e.data
  }

  lemma GotOwn(ctx: Context, e: Entry)
    ensures Got(ctx, e) == ctx.digest(e.data) <==> (Marked(e) ==> e.data == DIGEST_MARK + ctx.digest(e.data))
  {
  }

  // ---------------------------------------------------------------- what an accepted archive can hold

  /** How deep below the root the parts of a name lead, with ".." as one step up; None once they
      lead out of it. */
  function Walk(parts: seq<string>, depth: nat): Option<nat>
    decreases |parts|
  {
    if parts == [] then Some(depth)
    else if parts[0] == "" || parts[0] == "." then Walk(parts[1..], depth)
    else if parts[0] != ".." then Walk(parts[1..], depth + 1)
    else if depth == 0 then None
    else Walk(parts[1..], depth - 1)
  }

  lemma {:induction false} WalkStaysInside(parts: seq<string>, depth: nat)
    requires ".." !in parts
    ensures Walk(parts, depth).Some? && Walk(parts, depth).value >= depth
    decreases |parts|
  {
    if parts != [] {
      assert parts[0] in parts;
      WalkStaysInside(parts[1..], if parts[0] == "" || parts[0] == "." then depth else depth + 1);
    }
  }

  /** Nothing in an accepted archive is a link, and no name of a file leads out of the directory
      it is unpacked in, or up at all. */
  lemma AcceptedStaysInside(ctx: Context, es: seq<TarEntry>, size: nat, i: nat)
    requires Accepted(ctx, es, size) && i < |es|
    ensures es[i].kind != Link
    ensures es[i].kind == Regular ==>
              && !("/" <= Slashed(es[i].name)) && ".." !in Split(Slashed(es[i].name), '/')
              && Walk(Split(Slashed(es[i].name), '/'), 0).Some?
    ensures forall j :: 0 <= j < |es[i].name| ==> Slashed(es[i].name)[j] == if es[i].name[j] == '\\' then '/' else es[i].name[j]
  {
    hide Allowed, CleanName, MaxSize, Covered, Present, HasFile;
    assert EntryOk(ctx, es[i], FilesOf(es[..i]));
    if es[i].kind == Regular {
      WalkStaysInside(Split(Slashed(es[i].name), '/'), 0);
    }
  }

  /** Exactly the files that may be in an archive, with encryption or without: those of a backup,
      redacted settings, key files if they are encrypted, and what the manifest has listed before
      them, each up to its size; a manifest must be one of this product and format. */
  lemma FileOkExactly(ctx: Context, name: string, data: string, earlier: seq<Entry>)
    requires Slashed(name) == name && CleanName(name) == name && ".." !in Split(name, '/') && !("/" <= name)
    ensures EntryOk(ctx, TarEntry(Regular, name, data), earlier) <==>
              && (|| name in {"backup.json", "checksums.txt", "RESTORE_INSTRUCTIONS.txt", "var/lib/orvix/orvix.db",
                              "var/lib/orvix/mailstore.tar.gz", "var/lib/orvix/attachments.tar.gz",
                              "etc/orvix/orvix.yaml.redacted"}
                  || ("etc/orvix/" <= name && HasSuffix(name, ".env.redacted"))
                  || (ctx.encryption && "etc/orvix/secrets/" <= name)
                  || exists e <- earlier :: e.name == "backup.json" && ctx.decode(e.data).Some?
                                            && name in ctx.decode(e.data).value.items)
              && |data| <= (if name == "var/lib/orvix/orvix.db" then 2147483648
                            else if HasSuffix(name, ".tar.gz") then 10737418240 else 10485760)
              && (name == "backup.json" ==>
                    && ctx.decode(data).Some? && ctx.decode(data).value.product == "Orvix Enterprise Mail"
                    && ctx.decode(data).value.version == 1)
  {
    hide CleanName, Slashed, Split, HasSuffix;
  }

  /** An accepted archive is whole: it has a manifest and a checksum list and is not too large. */
  lemma AcceptedIsWhole(ctx: Context, es: seq<TarEntry>, size: nat)
    requires Accepted(ctx, es, size)
    ensures HasFile(FilesOf(es), "backup.json") && HasFile(FilesOf(es), "checksums.txt") && size <= 53687091200
  {
  }
}
