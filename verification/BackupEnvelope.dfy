/** The chunked AES-GCM envelope around a backup archive: what is written, what is
    accepted, and that the two agree. */
module BackupEnvelope {
  import opened Outcomes

  type byte = b: int | 0 <= b < 256
  type Bytes = seq<byte>

  const MAGIC: Bytes := [79, 82, 86, 66, 75, 48, 49, 10]  // "ORVBK01\n"
  const CHUNK_SIZE := 4 * 1024 * 1024
  const MAX_ENCRYPTED_CHUNK := CHUNK_SIZE + 64
  const TAG_SIZE := 16
  const ZERO_NONCE: Bytes := [0, 0, 0, 0, 0, 0, 0, 0, 0, 0, 0, 0]
  const ZERO_LENGTH: Bytes := [0, 0, 0, 0]

  type Nonce = n: Bytes | |n| == 12 witness ZERO_NONCE

  // ---------------------------------------------------------------- big-endian integers

  function Pow256(width: nat): nat {
    if width == 0 then 1 else 256 * Pow256(width - 1)
  }

  function BigEndian(width: nat, value: nat): (r: Bytes)
    ensures |r| == width
  {
    if width == 0 then [] else BigEndian(width - 1, value / 256) + [value % 256]
  }

  function FromBigEndian(bs: Bytes): nat {
    if bs == [] then 0 else FromBigEndian(bs[..|bs| - 1]) * 256 + bs[|bs| - 1]
  }

  lemma {:induction false} BigEndianReadsBack(width: nat, value: nat)
    requires value < Pow256(width)
    ensures FromBigEndian(BigEndian(width, value)) == value
  {
    if width > 0 {
      BigEndianReadsBack(width - 1, value / 256);
      assert BigEndian(width, value)[..width - 1] == BigEndian(width - 1, value / 256);
    }
  }

  lemma {:induction false} BigEndianWritesBack(bs: Bytes)
    ensures BigEndian(|bs|, FromBigEndian(bs)) == bs
  {
    if bs != [] {
      BigEndianWritesBack(bs[..|bs| - 1]);
    }
  }

  lemma WordSizes()
    ensures Pow256(4) == 0x1_0000_0000 && Pow256(8) == 0x1_0000_0000_0000_0000
  {
  }

  // ---------------------------------------------------------------- the cipher

  /** The associated data of one chunk: the magic and the chunk's index as a uint64. */
  function ChunkAad(index: nat): Bytes {
    MAGIC + BigEndian(8, index % 0x1_0000_0000_0000_0000)
  }

  /** An AEAD under a fixed key, as functions of nonce, text and associated data. */
  datatype Aead = Aead(seal: (Nonce, Bytes, Bytes) -> Bytes, open: (Nonce, Bytes, Bytes) -> Option<Bytes>)

  /** One call of seal: what a holder of the key has made valid. */
  datatype Sealing = Sealing(nonce: Nonce, plain: Bytes, aad: Bytes)

  /** Sealing adds a 16-byte tag, and open succeeds on exactly what has been sealed. */
  ghost predicate Ideal(aead: Aead, log: set<Sealing>) {
    && (forall n, p, a :: |aead.seal(n, p, a)| == |p| + TAG_SIZE)
    && (forall s <- log :: aead.open(s.nonce, aead.seal(s.nonce, s.plain, s.aad), s.aad) == Some(s.plain))
    && (forall n, c, a :: var r := aead.open(n, c, a);
          r.Some? ==> Sealing(n, r.value, a) in log && aead.seal(n, r.value, a) == c)
  }

  /** The idealisation asks nothing impossible, whatever has been sealed. */
  lemma IdealExists(log: set<Sealing>)
    ensures exists aead :: Ideal(aead, log)
  {
    var tag: Bytes := ZERO_NONCE + ZERO_LENGTH;
    var seal := (n: Nonce, p: Bytes, a: Bytes) => p + tag;
    var open := (n: Nonce, c: Bytes, a: Bytes) =>
      if |c| >= TAG_SIZE && c[|c| - TAG_SIZE..] == tag && Sealing(n, c[..|c| - TAG_SIZE], a) in log
      then Some(c[..|c| - TAG_SIZE]) else None;
    var aead := Aead(seal, open);
    forall s | s in log ensures aead.open(s.nonce, aead.seal(s.nonce, s.plain, s.aad), s.aad) == Some(s.plain) {
      assert (s.plain + tag)[..|s.plain|] == s.plain;
    }
    assert Ideal(aead, log);
  }

  // ---------------------------------------------------------------- what is written

  /** The plaintext in pieces of the chunk size, the last one possibly shorter. */
  function Chunks(plain: Bytes): seq<Bytes> {
    if plain == [] then []
    else if |plain| <= CHUNK_SIZE then [plain]
    else [plain[..CHUNK_SIZE]] + Chunks(plain[CHUNK_SIZE..])
  }

  function Join(chunks: seq<Bytes>): Bytes {
    if chunks == [] then [] else chunks[0] + Join(chunks[1..])
  }

  lemma {:induction false} ChunksJoin(plain: Bytes)
    ensures Join(Chunks(plain)) == plain
    ensures forall c <- Chunks(plain) :: 0 < |c| <= CHUNK_SIZE
    ensures |Chunks(plain)| <= |plain|
    decreases |plain|
  {
    if |plain| > CHUNK_SIZE {
      ChunksJoin(plain[CHUNK_SIZE..]);
      assert Chunks(plain)[1..] == Chunks(plain[CHUNK_SIZE..]);
    } else if plain != [] {
      assert Join([plain]) == plain + Join([plain][1..]);
    }
  }

  /** A chunk record: the nonce and the sealed chunk; its length goes between the two. */
  datatype Record = Record(nonce: Nonce, sealed: Bytes)

  ghost predicate Framed(records: seq<Record>) {
    forall r <- records :: 0 < |r.sealed| <= MAX_ENCRYPTED_CHUNK
  }

  function Encode(r: Record): Bytes {
    r.nonce + BigEndian(4, |r.sealed| % 0x1_0000_0000) + r.sealed
  }

  function EncodeAll(records: seq<Record>): Bytes {
    if records == [] then [] else Encode(records[0]) + EncodeAll(records[1..])
  }

  lemma {:induction false} EncodeAllSnoc(records: seq<Record>, r: Record)
    ensures EncodeAll(records + [r]) == EncodeAll(records) + Encode(r)
  {
    if records == [] {
      assert EncodeAll([r]) == Encode(r) + EncodeAll([]);
    } else {
      EncodeAllSnoc(records[1..], r);
      assert (records + [r])[1..] == records[1..] + [r];
    }
  }

  /** Chunk k sealed under the k-th nonce with index k as associated data. */
  function SealChunk(aead: Aead, nonces: nat -> Nonce, chunks: seq<Bytes>, k: nat): Record
    requires k < |chunks|
  {
    Record(nonces(k), aead.seal(nonces(k), chunks[k], ChunkAad(k)))
  }

  function SealAll(aead: Aead, nonces: nat -> Nonce, chunks: seq<Bytes>): (records: seq<Record>)
    ensures |records| == |chunks|
  {
    seq(|chunks|, k requires 0 <= k < |chunks| => SealChunk(aead, nonces, chunks, k))
  }

  /** An envelope file: magic, records, and a terminator record of length zero. */
  function Envelope(records: seq<Record>, terminator: Nonce): Bytes {
    MAGIC + EncodeAll(records) + (terminator + ZERO_LENGTH)
  }

  function Written(aead: Aead, nonces: nat -> Nonce, plain: Bytes): Bytes {
    Envelope(SealAll(aead, nonces, Chunks(plain)), ZERO_NONCE)
  }

  /** The four bytes of a length, highest first. */
  lemma WordOfFour(value: nat)
    requires value < 0x1_0000_0000
    ensures BigEndian(4, value) == [value / 0x100_0000, value / 0x1_0000 % 256, value / 256 % 256, value % 256]
  {
    var b, c, d := value / 256, value / 0x1_0000, value / 0x100_0000;
    assert b / 256 == c && c / 256 == d && d / 256 == 0;
    assert BigEndian(0, 0) == [];
    assert BigEndian(1, d) == [d % 256];
    assert BigEndian(2, c) == [d % 256, c % 256];
    assert BigEndian(3, b) == [d % 256, c % 256, b % 256];
  }

  /** The record's nonce, the length of what is sealed and that itself stand there in the file. */
  predicate LiesAt(file: Bytes, at: nat, nonce: Nonce, sealed: Bytes) {
    var n := |sealed|;
    && at + 16 + n <= |file| && file[at..at + 12] == nonce && file[at + 16..at + 16 + n] == sealed
    && file[at + 12..at + 16] == [n / 0x100_0000 % 256, n / 0x1_0000 % 256, n / 256 % 256, n % 256]
  }

  /** The format of a file: magic, a record for every chunk, and sixteen zeroes; the associated
      data of a chunk is the magic and its index in eight bytes. */
  lemma FormatExactly(aead: Aead, log: set<Sealing>, nonces: nat -> Nonce, plain: Bytes, k: nat)
    requires Ideal(aead, log) && k < |Chunks(plain)| < 0x1_0000_0000_0000_0000
    ensures var magic: Bytes := [79, 82, 86, 66, 75, 48, 49, 10];
            var zeroes: Bytes := [0, 0, 0, 0, 0, 0, 0, 0, 0, 0, 0, 0, 0, 0, 0, 0];
            var chunks, written := Chunks(plain), Written(aead, nonces, plain);
            && magic <= written && |written| >= 16 && written[|written| - 16..] == zeroes
            && LiesAt(written, 8 + |EncodeAll(SealAll(aead, nonces, chunks)[..k])|, nonces(k),
                      aead.seal(nonces(k), chunks[k], magic + BigEndian(8, k)))
  {
    hide EncodeAll, Encode, Chunks, BigEndian, LiesAt;
    var records := SealAll(aead, nonces, Chunks(plain));
    var r := SealedRecord(aead, log, nonces, plain, k);
    EncodeAllAt(records, k);
    Behind(EncodeAll(records[..k]), r, EncodeAll(records[k + 1..]));
    assert ZERO_NONCE + ZERO_LENGTH == [0, 0, 0, 0, 0, 0, 0, 0, 0, 0, 0, 0, 0, 0, 0, 0];
  }

  lemma SealedRecord(aead: Aead, log: set<Sealing>, nonces: nat -> Nonce, plain: Bytes, k: nat) returns (r: Record)
    requires Ideal(aead, log) && k < |Chunks(plain)| < 0x1_0000_0000_0000_0000
    ensures r == SealAll(aead, nonces, Chunks(plain))[k] && r.nonce == nonces(k) && |r.sealed| < 0x1_0000_0000
    ensures r.sealed == aead.seal(nonces(k), Chunks(plain)[k], MAGIC + BigEndian(8, k))
  {
    hide Chunks, BigEndian;
    ChunksJoin(plain);
    assert Chunks(plain)[k] in Chunks(plain);
    r := SealAll(aead, nonces, Chunks(plain))[k];
  }

  lemma Behind(before: Bytes, r: Record, after: Bytes)
    requires |r.sealed| < 0x1_0000_0000
    ensures LiesAt(MAGIC + (before + Encode(r) + after) + (ZERO_NONCE + ZERO_LENGTH), 8 + |before|, r.nonce, r.sealed)
  {
    hide Encode;
    EncodedExactly(r);
    var e, at := Encode(r), 8 + |before|;
    var file := MAGIC + (before + e + after) + (ZERO_NONCE + ZERO_LENGTH);
    assert file[at..at + |e|] == e;
    assert file[at..at + 12] == e[..12] && file[at + 12..at + 16] == e[12..16] && file[at + 16..at + |e|] == e[16..];
  }

  lemma EncodedExactly(r: Record)
    requires |r.sealed| < 0x1_0000_0000
    ensures var e, n := Encode(r), |r.sealed|;
            && |e| == 16 + n && e[..12] == r.nonce && e[16..] == r.sealed
            && e[12..16] == [n / 0x100_0000 % 256, n / 0x1_0000 % 256, n / 256 % 256, n % 256]
  {
    hide BigEndian;
    WordOfFour(|r.sealed|);
  }

  lemma {:induction false} EncodeAllAt(records: seq<Record>, k: nat)
    requires k < |records|
    ensures EncodeAll(records) == EncodeAll(records[..k]) + Encode(records[k]) + EncodeAll(records[k + 1..])
  {
    hide Encode;
    if k > 0 {
      EncodeAllAt(records[1..], k - 1);
      assert records[1..][..k - 1] == records[..k][1..] && records[1..][k..] == records[k + 1..];
      assert EncodeAll(records[..k]) == Encode(records[0]) + EncodeAll(records[..k][1..]);
    }
  }

  /** The chunks are four mebibytes each, and the last one is what remains. */
  lemma {:induction false} ChunksExactly(plain: Bytes, k: nat)
    ensures k < |Chunks(plain)| <==> k * 4194304 < |plain|
    ensures k < |Chunks(plain)| ==>
              Chunks(plain)[k] == plain[k * 4194304..if (k + 1) * 4194304 < |plain| then (k + 1) * 4194304 else |plain|]
    decreases k
  {
    if k > 0 && |plain| > CHUNK_SIZE {
      ChunksExactly(plain[CHUNK_SIZE..], k - 1);
    }
  }

  /** Everything the writer of one envelope has sealed. */
  ghost function WriterLog(nonces: nat -> Nonce, chunks: seq<Bytes>): set<Sealing> {
    set k | 0 <= k < |chunks| :: Sealing(nonces(k), chunks[k], ChunkAad(k))
  }

  // ---------------------------------------------------------------- what is accepted

  datatype EnvelopeError = BadKey | NoSource | BadHeader | DestinationExists | Truncated | TrailingData
                         | ChunkTooLong | AuthenticationFailed | IoFailure

  /** The reader's loop, from the start of a record whose index is given. */
  function OpenRecords(aead: Aead, bs: Bytes, index: nat): Result<Bytes, EnvelopeError>
    decreases |bs|
  {
    if |bs| < 16 then Err(Truncated)
    else
      var length := FromBigEndian(bs[12..16]);
      if length == 0 then if |bs| > 16 then Err(TrailingData) else Ok([])
      else if length > MAX_ENCRYPTED_CHUNK then Err(ChunkTooLong)
      else if |bs| < 16 + length then Err(Truncated)
      else match aead.open(bs[..12], bs[16..16 + length], ChunkAad(index))
        case None => Err(AuthenticationFailed)
        case Some(p) => Prepend(p, OpenRecords(aead, bs[16 + length..], index + 1))
  }

  function Prepend(p: Bytes, r: Result<Bytes, EnvelopeError>): Result<Bytes, EnvelopeError> {
    match r
    case Ok(q) => Ok(p + q)
    case Err(e) => Err(e)
  }

  /** Exactly what is said of a record that does not open: that something is missing or follows the
      end, that it is longer than any chunk and its tag can be, or that it was not sealed so. */
  lemma RefusedExactly(aead: Aead, bs: Bytes, index: nat)
    ensures var whole := |bs| >= 16;
            var n := if whole then FromBigEndian(bs[12..16]) else 0;
            var r := OpenRecords(aead, bs, index);
            && (!whole || (0 < n <= 4194304 + 64 && |bs| < 16 + n) ==> r == Err(Truncated))
            && (whole && n == 0 ==> r == if |bs| == 16 then Ok([]) else Err(TrailingData))
            && (whole && n > 4194304 + 64 ==> r == Err(ChunkTooLong))
            && (whole && 0 < n <= 4194304 + 64 && |bs| >= 16 + n ==>
                  var plain := aead.open(bs[..12], bs[16..16 + n], MAGIC + BigEndian(8, index % 0x1_0000_0000_0000_0000));
                  if plain.None? then r == Err(AuthenticationFailed)
                  else r.Ok? ==> plain.value <= r.value)
  {
    hide FromBigEndian, BigEndian;
  }

  function OpenEnvelope(aead: Aead, file: Bytes): Result<Bytes, EnvelopeError> {
    if MAGIC <= file then OpenRecords(aead, file[|MAGIC|..], 0) else Err(BadHeader)
  }

  /** Opening records one by one, apart from how they are laid out in the file. */
  function OpenAll(aead: Aead, records: seq<Record>, index: nat): Option<Bytes> {
    if records == [] then Some([])
    else match aead.open(records[0].nonce, records[0].sealed, ChunkAad(index))
      case None => None
      case Some(p) => match OpenAll(aead, records[1..], index + 1)
        case None => None
        case Some(q) => Some(p + q)
  }

  // ---------------------------------------------------------------- framing

  lemma FrameParts(r: Record, rest: Bytes)
    requires 0 < |r.sealed| <= MAX_ENCRYPTED_CHUNK
    ensures var bs := Encode(r) + rest;
            && |bs| == 16 + |r.sealed| + |rest|
            && bs[..12] == r.nonce && FromBigEndian(bs[12..16]) == |r.sealed|
            && bs[16..16 + |r.sealed|] == r.sealed && bs[16 + |r.sealed|..] == rest
  {
    hide BigEndian, FromBigEndian, Pow256;
    WordSizes();
    BigEndianReadsBack(4, |r.sealed|);
    assert (Encode(r) + rest)[12..16] == BigEndian(4, |r.sealed|);
  }

  lemma ZeroLengthWord()
    ensures BigEndian(4, 0) == ZERO_LENGTH
  {
  }

  lemma TerminatorParts(t: Nonce)
    ensures |t + ZERO_LENGTH| == 16 && FromBigEndian((t + ZERO_LENGTH)[12..16]) == 0
  {
    assert (t + ZERO_LENGTH)[12..16] == ZERO_LENGTH;
    assert ZERO_LENGTH[..3] == [0, 0, 0] && [0, 0, 0][..2] == [0, 0] && [0, 0][..1] == [0] && [0][..0] == [];
    assert FromBigEndian([]) == 0 && FromBigEndian([0]) == 0 && FromBigEndian([0, 0]) == 0;
  }

  /** A reader of laid-out records opens exactly those records. */
  lemma {:induction false} FramedReadsBack(aead: Aead, records: seq<Record>, t: Nonce, index: nat)
    requires Framed(records)
    ensures OpenRecords(aead, EncodeAll(records) + (t + ZERO_LENGTH), index)
            == match OpenAll(aead, records, index)
               case Some(p) => Ok(p)
               case None => Err(AuthenticationFailed)
    decreases |records|
  {
    TerminatorParts(t);
    if records == [] {
      assert EncodeAll(records) + (t + ZERO_LENGTH) == t + ZERO_LENGTH;
    } else {
      var rest := EncodeAll(records[1..]) + (t + ZERO_LENGTH);
      FrameParts(records[0], rest);
      assert EncodeAll(records) + (t + ZERO_LENGTH) == Encode(records[0]) + rest;
      FramedReadsBack(aead, records[1..], t, index + 1);
    }
  }

  lemma RecordParts(bs: Bytes, length: nat)
    requires 0 < length <= MAX_ENCRYPTED_CHUNK && 16 + length <= |bs|
    requires FromBigEndian(bs[12..16]) == length
    ensures bs == Encode(Record(bs[..12], bs[16..16 + length])) + bs[16 + length..]
  {
    BigEndianWritesBack(bs[12..16]);
  }

  lemma TerminatorOnly(bs: Bytes)
    requires |bs| == 16 && FromBigEndian(bs[12..16]) == 0
    ensures bs == EncodeAll([]) + (bs[..12] + ZERO_LENGTH)
  {
    BigEndianWritesBack(bs[12..16]);
    ZeroLengthWord();
    assert bs == bs[..12] + bs[12..16];
  }

  /** Whatever the reader accepts is laid out as records and a terminator. */
  lemma {:induction false} AcceptedIsFramed(aead: Aead, bs: Bytes, index: nat) returns (records: seq<Record>, t: Nonce)
    requires OpenRecords(aead, bs, index).Ok?
    ensures Framed(records) && bs == EncodeAll(records) + (t + ZERO_LENGTH)
    decreases |bs|
  {
    hide FromBigEndian, BigEndian, Encode;
    var length := FromBigEndian(bs[12..16]);
    if length == 0 {
      records, t := [], bs[..12];
      TerminatorOnly(bs);
    } else {
      var r := Record(bs[..12], bs[16..16 + length]);
      var rest, t' := AcceptedIsFramed(aead, bs[16 + length..], index + 1);
      records, t := [r] + rest, t';
      RecordParts(bs, length);
      assert EncodeAll(records) == Encode(r) + EncodeAll(rest);
    }
  }

  /** No accepted file extends another accepted file. */
  lemma {:induction false} AcceptedIsPrefixFree(aead: Aead, bs: Bytes, extension: Bytes, index: nat)
    requires OpenRecords(aead, bs, index).Ok? && extension != []
    ensures OpenRecords(aead, bs + extension, index) == Err(TrailingData)
    decreases |bs|
  {
    hide ChunkAad, FromBigEndian;
    var length := FromBigEndian(bs[12..16]);
    var longer := bs + extension;
    assert longer[12..16] == bs[12..16];
    if length > 0 {
      assert longer[..12] == bs[..12] && longer[16..16 + length] == bs[16..16 + length];
      assert longer[16 + length..] == bs[16 + length..] + extension;
      AcceptedIsPrefixFree(aead, bs[16 + length..], extension, index + 1);
    }
  }

  // ---------------------------------------------------------------- authentication

  lemma AadInjective(i: nat, j: nat)
    requires i < 0x1_0000_0000_0000_0000 && j < 0x1_0000_0000_0000_0000
    requires ChunkAad(i) == ChunkAad(j)
    ensures i == j
  {
    hide BigEndian, FromBigEndian, Pow256;
    WordSizes();
    assert ChunkAad(i)[|MAGIC|..] == BigEndian(8, i) && ChunkAad(j)[|MAGIC|..] == BigEndian(8, j);
    BigEndianReadsBack(8, i);
    BigEndianReadsBack(8, j);
  }

  /** Every record is a sealing the key has made, for the place where the record stands. */
  ghost predicate Logged(aead: Aead, log: set<Sealing>, records: seq<Record>, plains: seq<Bytes>, from: nat) {
    && |plains| == |records|
    && forall k :: 0 <= k < |records| ==>
         && Sealing(records[k].nonce, plains[k], ChunkAad(from + k)) in log
         && records[k].sealed == aead.seal(records[k].nonce, plains[k], ChunkAad(from + k))
  }

  /** Logged records open to what was sealed. */
  lemma {:induction false} LoggedOpen(aead: Aead, log: set<Sealing>, records: seq<Record>, plains: seq<Bytes>, from: nat)
    requires Ideal(aead, log) && Logged(aead, log, records, plains, from)
    ensures OpenAll(aead, records, from) == Some(Join(plains))
    decreases |records|
  {
    hide ChunkAad;
    if records != [] {
      var rest, others := records[1..], plains[1..];
      forall k | 0 <= k < |rest|
        ensures Sealing(rest[k].nonce, others[k], ChunkAad(from + 1 + k)) in log
        ensures rest[k].sealed == aead.seal(rest[k].nonce, others[k], ChunkAad(from + 1 + k))
      {
        assert rest[k] == records[k + 1] && from + 1 + k == from + (k + 1);
      }
      LoggedOpen(aead, log, rest, others, from + 1);
      assert Sealing(records[0].nonce, plains[0], ChunkAad(from + 0)) in log;
    }
  }

  /** And nothing else opens. */
  lemma {:induction false} OpenedAreLogged(aead: Aead, log: set<Sealing>, records: seq<Record>, from: nat)
    returns (plains: seq<Bytes>)
    requires Ideal(aead, log) && OpenAll(aead, records, from).Some?
    ensures Logged(aead, log, records, plains, from) && OpenAll(aead, records, from) == Some(Join(plains))
    decreases |records|
  {
    hide ChunkAad;
    if records == [] {
      plains := [];
    } else {
      var rest := OpenedAreLogged(aead, log, records[1..], from + 1);
      plains := [aead.open(records[0].nonce, records[0].sealed, ChunkAad(from)).value] + rest;
      forall k | 0 <= k < |records|
        ensures Sealing(records[k].nonce, plains[k], ChunkAad(from + k)) in log
        ensures records[k].sealed == aead.seal(records[k].nonce, plains[k], ChunkAad(from + k))
      {
        assert k > 0 ==> records[k] == records[1..][k - 1] && plains[k] == rest[k - 1] && from + k == from + 1 + (k - 1);
      }
    }
  }

  /** The writer's own records open to its chunks, also when the key has sealed more. */
  lemma OwnRecordsOpen(aead: Aead, log: set<Sealing>, nonces: nat -> Nonce, chunks: seq<Bytes>, from: nat, n: nat)
    requires Ideal(aead, log) && WriterLog(nonces, chunks) <= log && from + n <= |chunks|
    ensures OpenAll(aead, SealAll(aead, nonces, chunks)[from..from + n], from) == Some(Join(chunks[from..from + n]))
  {
    hide ChunkAad, Ideal;
    OwnRecordsLogged(aead, log, nonces, chunks, from, n);
    LoggedOpen(aead, log, SealAll(aead, nonces, chunks)[from..from + n], chunks[from..from + n], from);
  }

  lemma OwnRecordsLogged(aead: Aead, log: set<Sealing>, nonces: nat -> Nonce, chunks: seq<Bytes>, from: nat, n: nat)
    requires WriterLog(nonces, chunks) <= log && from + n <= |chunks|
    ensures Logged(aead, log, SealAll(aead, nonces, chunks)[from..from + n], chunks[from..from + n], from)
  {
    hide ChunkAad;
    var records, plains := SealAll(aead, nonces, chunks)[from..from + n], chunks[from..from + n];
    forall k | 0 <= k < |records|
      ensures Sealing(records[k].nonce, plains[k], ChunkAad(from + k)) in log
      ensures records[k].sealed == aead.seal(records[k].nonce, plains[k], ChunkAad(from + k))
    {
      assert records[k] == SealChunk(aead, nonces, chunks, from + k) && plains[k] == chunks[from + k];
      assert Sealing(nonces(from + k), chunks[from + k], ChunkAad(from + k)) in WriterLog(nonces, chunks);
    }
  }

  /** The writer's nonces have sealed nothing but its own chunks, whatever else the key has
      sealed under other nonces. */
  ghost predicate NoncesApart(log: set<Sealing>, nonces: nat -> Nonce, chunks: seq<Bytes>) {
    forall s, k :: s in log && 0 <= k < |chunks| && s.nonce == nonces(k) ==> s in WriterLog(nonces, chunks)
  }

  /** So it is when the key has used every nonce once, and when it has sealed this file only. */
  lemma FreshNoncesApart(log: set<Sealing>, nonces: nat -> Nonce, chunks: seq<Bytes>)
    requires WriterLog(nonces, chunks) <= log
    requires (forall s, t :: s in log && t in log && s.nonce == t.nonce ==> s == t) || log == WriterLog(nonces, chunks)
    ensures NoncesApart(log, nonces, chunks)
  {
    hide ChunkAad;
    forall s, k | s in log && 0 <= k < |chunks| && s.nonce == nonces(k) ensures s in WriterLog(nonces, chunks) {
      assert Sealing(nonces(k), chunks[k], ChunkAad(k)) in WriterLog(nonces, chunks);
    }
  }

  ghost predicate UnderOwnNonces(records: seq<Record>, nonces: nat -> Nonce, chunks: seq<Bytes>) {
    forall r <- records :: exists k :: 0 <= k < |chunks| && r.nonce == nonces(k)
  }

  /** Records under the writer's nonces that open from an index on are exactly the writer's
      records from that index on. */
  lemma OnlyOwnRecordsOpen(aead: Aead, log: set<Sealing>, nonces: nat -> Nonce, chunks: seq<Bytes>,
                           records: seq<Record>, from: nat)
    requires Ideal(aead, log) && NoncesApart(log, nonces, chunks) && UnderOwnNonces(records, nonces, chunks)
    requires OpenAll(aead, records, from).Some?
    requires from <= |chunks| < 0x1_0000_0000_0000_0000 && from + |records| < 0x1_0000_0000_0000_0000
    ensures from + |records| <= |chunks| && records == SealAll(aead, nonces, chunks)[from..from + |records|]
  {
    hide ChunkAad, Ideal;
    var plains := OpenedAreLogged(aead, log, records, from);
    forall m | 0 <= m < |records| ensures from + m < |chunks| && records[m] == SealChunk(aead, nonces, chunks, from + m) {
      assert records[m] in records;
      var s := Sealing(records[m].nonce, plains[m], ChunkAad(from + m));
      assert s in WriterLog(nonces, chunks);
      var k :| 0 <= k < |chunks| && s == Sealing(nonces(k), chunks[k], ChunkAad(k));
      AadInjective(k, from + m);
    }
    if records != [] {
      assert from + (|records| - 1) < |chunks|;
    }
    var own := SealAll(aead, nonces, chunks)[from..from + |records|];
    forall m | 0 <= m < |records| ensures records[m] == own[m] {
      assert own[m] == SealAll(aead, nonces, chunks)[from + m];
    }
  }

  // ---------------------------------------------------------------- the envelope as a whole

  lemma WrittenIsFramed(aead: Aead, log: set<Sealing>, nonces: nat -> Nonce, plain: Bytes)
    requires Ideal(aead, log)
    ensures Framed(SealAll(aead, nonces, Chunks(plain)))
    ensures forall r <- SealAll(aead, nonces, Chunks(plain)) :: |r.sealed| <= CHUNK_SIZE + TAG_SIZE
  {
    ChunksJoin(plain);
  }

  lemma EnvelopeOpens(aead: Aead, records: seq<Record>, t: Nonce)
    requires Framed(records)
    ensures OpenEnvelope(aead, Envelope(records, t))
            == match OpenAll(aead, records, 0)
               case Some(p) => Ok(p)
               case None => Err(AuthenticationFailed)
  {
    hide OpenRecords, OpenAll, EncodeAll, Framed;
    FramedReadsBack(aead, records, t, 0);
    assert Envelope(records, t)[|MAGIC|..] == EncodeAll(records) + (t + ZERO_LENGTH);
  }

  /** The first k records under any terminator open to the first k chunks. */
  lemma FirstRecordsOpen(aead: Aead, log: set<Sealing>, nonces: nat -> Nonce, plain: Bytes, k: nat, t: Nonce)
    requires Ideal(aead, log) && WriterLog(nonces, Chunks(plain)) <= log && k <= |Chunks(plain)|
    ensures OpenEnvelope(aead, Envelope(SealAll(aead, nonces, Chunks(plain))[..k], t)) == Ok(Join(Chunks(plain)[..k]))
  {
    hide *;
    var chunks := Chunks(plain);
    var records := SealAll(aead, nonces, chunks);
    WrittenIsFramed(aead, log, nonces, plain);
    OwnRecordsOpen(aead, log, nonces, chunks, 0, k);
    assert chunks[0..0 + k] == chunks[..k] && records[0..0 + k] == records[..k];
    FirstFramed(records, k);
    EnvelopeOpens(aead, records[..k], t);
  }

  lemma FirstFramed(records: seq<Record>, k: nat)
    requires Framed(records) && k <= |records|
    ensures Framed(records[..k])
  {
  }

  /** Decrypting what was written yields the plaintext, whatever else the key has sealed. */
  lemma RoundTrip(aead: Aead, log: set<Sealing>, nonces: nat -> Nonce, plain: Bytes)
    requires Ideal(aead, log) && WriterLog(nonces, Chunks(plain)) <= log
    ensures OpenEnvelope(aead, Written(aead, nonces, plain)) == Ok(plain)
  {
    hide OpenEnvelope, Envelope, SealAll, Chunks, Join, Ideal, WriterLog;
    var chunks := Chunks(plain);
    ChunksJoin(plain);
    FirstRecordsOpen(aead, log, nonces, plain, |chunks|, ZERO_NONCE);
    assert SealAll(aead, nonces, chunks)[..|chunks|] == SealAll(aead, nonces, chunks) && chunks[..|chunks|] == chunks;
  }

  /** Exactly which files are accepted, whatever the key has sealed: records each of which is
      a sealing for its place, closed by a terminator whose nonce is not looked at. */
  lemma AcceptedExactly(aead: Aead, log: set<Sealing>, file: Bytes, q: Bytes)
    requires Ideal(aead, log)
    ensures OpenEnvelope(aead, file) == Ok(q) <==>
            exists records, plains, t: Nonce ::
              && Framed(records) && file == Envelope(records, t)
              && Logged(aead, log, records, plains, 0) && q == Join(plains)
  {
    hide OpenRecords, OpenAll, EncodeAll, Join, Ideal, Framed, Logged;
    if OpenEnvelope(aead, file) == Ok(q) {
      var records, t := AcceptedIsFramed(aead, file[|MAGIC|..], 0);
      FramedReadsBack(aead, records, t, 0);
      var plains := OpenedAreLogged(aead, log, records, 0);
      assert file == Envelope(records, t);
    }
    forall records, plains, t: Nonce
      | Framed(records) && file == Envelope(records, t) && Logged(aead, log, records, plains, 0) && q == Join(plains)
      ensures OpenEnvelope(aead, file) == Ok(q)
    {
      LoggedOpen(aead, log, records, plains, 0);
      EnvelopeOpens(aead, records, t);
    }
  }

  /** Records of different envelopes can be mixed, each at its own place: the first k of one
      and the rest of another open to the first k chunks of one and the rest of the other. */
  lemma SplicedAccepted(aead: Aead, log: set<Sealing>, ours: nat -> Nonce, theirs: nat -> Nonce,
                        a: Bytes, b: Bytes, k: nat, t: Nonce)
    requires Ideal(aead, log) && WriterLog(ours, Chunks(a)) <= log && WriterLog(theirs, Chunks(b)) <= log
    requires k <= |Chunks(a)| && k <= |Chunks(b)|
    ensures OpenEnvelope(aead, Envelope(SealAll(aead, ours, Chunks(a))[..k] + SealAll(aead, theirs, Chunks(b))[k..], t))
         == Ok(Join(Chunks(a)[..k] + Chunks(b)[k..]))
  {
    hide *;
    var x, y := Chunks(a), Chunks(b);
    var rx, ry := SealAll(aead, ours, x), SealAll(aead, theirs, y);
    OwnRecordsLogged(aead, log, ours, x, 0, k);
    OwnRecordsLogged(aead, log, theirs, y, k, |y| - k);
    assert rx[0..0 + k] == rx[..k] && x[0..0 + k] == x[..k];
    assert ry[k..k + (|y| - k)] == ry[k..] && y[k..k + (|y| - k)] == y[k..];
    LoggedConcat(aead, log, rx[..k], x[..k], ry[k..], y[k..]);
    LoggedOpen(aead, log, rx[..k] + ry[k..], x[..k] + y[k..], 0);
    WrittenIsFramed(aead, log, ours, a);
    WrittenIsFramed(aead, log, theirs, b);
    SpliceFramed(rx, ry, k);
    EnvelopeOpens(aead, rx[..k] + ry[k..], t);
  }

  lemma LoggedConcat(aead: Aead, log: set<Sealing>, a: seq<Record>, x: seq<Bytes>, b: seq<Record>, y: seq<Bytes>)
    requires Logged(aead, log, a, x, 0) && Logged(aead, log, b, y, |a|)
    ensures Logged(aead, log, a + b, x + y, 0)
  {
    hide ChunkAad;
    forall m | |a| <= m < |a + b|
      ensures (a + b)[m] == b[m - |a|] && (x + y)[m] == y[m - |a|]
      ensures Sealing(b[m - |a|].nonce, y[m - |a|], ChunkAad(m)) in log
      ensures b[m - |a|].sealed == aead.seal(b[m - |a|].nonce, y[m - |a|], ChunkAad(m))
    {
      assert |a| + (m - |a|) == m;
    }
  }

  lemma SpliceFramed(a: seq<Record>, b: seq<Record>, k: nat)
    requires Framed(a) && Framed(b) && k <= |a| && k <= |b|
    ensures Framed(a[..k] + b[k..])
  {
    forall r | r in a[..k] + b[k..] ensures r in a || r in b {
    }
  }

  /** Once the key has sealed this one file only, the accepted files are its first k records,
      for any k, under any terminator; the result is always the first k chunks. */
  lemma AcceptedAlone(aead: Aead, nonces: nat -> Nonce, plain: Bytes, file: Bytes, q: Bytes)
    requires Ideal(aead, WriterLog(nonces, Chunks(plain)))
    requires |plain| < 0x8000_0000_0000_0000 && |file| < 0x8000_0000_0000_0000
    ensures OpenEnvelope(aead, file) == Ok(q) <==>
            exists k: nat, t: Nonce ::
              && k <= |Chunks(plain)| && q == Join(Chunks(plain)[..k])
              && file == Envelope(SealAll(aead, nonces, Chunks(plain))[..k], t)
  {
    hide *;
    var chunks := Chunks(plain);
    if OpenEnvelope(aead, file) == Ok(q) {
      var k, t := AcceptedIsPrefix(aead, nonces, plain, file);
      FirstRecordsOpen(aead, WriterLog(nonces, chunks), nonces, plain, k, t);
    }
    forall k: nat, t: Nonce | k <= |chunks| && q == Join(chunks[..k]) && file == Envelope(SealAll(aead, nonces, chunks)[..k], t)
      ensures OpenEnvelope(aead, file) == Ok(q)
    {
      FirstRecordsOpen(aead, WriterLog(nonces, chunks), nonces, plain, k, t);
    }
  }

  lemma LoggedUnderOwnNonces(aead: Aead, nonces: nat -> Nonce, chunks: seq<Bytes>, records: seq<Record>, plains: seq<Bytes>)
    requires Logged(aead, WriterLog(nonces, chunks), records, plains, 0)
    ensures UnderOwnNonces(records, nonces, chunks)
  {
    hide ChunkAad;
    forall r | r in records ensures exists k :: 0 <= k < |chunks| && r.nonce == nonces(k) {
      var m :| 0 <= m < |records| && records[m] == r;
      assert Sealing(r.nonce, plains[m], ChunkAad(0 + m)) in WriterLog(nonces, chunks);
    }
  }

  lemma AcceptedIsPrefix(aead: Aead, nonces: nat -> Nonce, plain: Bytes, file: Bytes) returns (k: nat, t: Nonce)
    requires Ideal(aead, WriterLog(nonces, Chunks(plain)))
    requires |plain| < 0x8000_0000_0000_0000 && |file| < 0x8000_0000_0000_0000
    requires OpenEnvelope(aead, file).Ok?
    ensures k <= |Chunks(plain)| && file == Envelope(SealAll(aead, nonces, Chunks(plain))[..k], t)
  {
    hide OpenRecords, OpenAll, EncodeAll, SealAll, Chunks, Join, Ideal, WriterLog, Framed, Logged, NoncesApart, UnderOwnNonces;
    var chunks := Chunks(plain);
    var log := WriterLog(nonces, chunks);
    var own, t' := AcceptedIsFramed(aead, file[|MAGIC|..], 0);
    FramedReadsBack(aead, own, t', 0);
    EncodeAllLength(own);
    ChunksJoin(plain);
    var plains := OpenedAreLogged(aead, log, own, 0);
    LoggedUnderOwnNonces(aead, nonces, chunks, own, plains);
    FreshNoncesApart(log, nonces, chunks);
    OnlyOwnRecordsOpen(aead, log, nonces, chunks, own, 0);
    k, t := |own|, t';
    var records := SealAll(aead, nonces, chunks);
    assert records[0..0 + k] == records[..k];
  }

  lemma {:induction false} EncodeAllLength(records: seq<Record>)
    ensures 16 * |records| <= |EncodeAll(records)|
  {
    if records != [] {
      EncodeAllLength(records[1..]);
    }
  }

  /** Cutting a written envelope anywhere, or adding anything to it, makes it unreadable. */
  lemma CutOrExtendedRejected(aead: Aead, log: set<Sealing>, nonces: nat -> Nonce, plain: Bytes, file: Bytes)
    requires Ideal(aead, log) && WriterLog(nonces, Chunks(plain)) <= log
    requires file < Written(aead, nonces, plain) || Written(aead, nonces, plain) < file
    ensures OpenEnvelope(aead, file).Err?
  {
    hide OpenRecords, Written, Ideal, WriterLog;
    var written := Written(aead, nonces, plain);
    RoundTrip(aead, log, nonces, plain);
    if written < file {
      assert file[|MAGIC|..] == written[|MAGIC|..] + file[|written|..];
      AcceptedIsPrefixFree(aead, written[|MAGIC|..], file[|written|..], 0);
    } else if OpenEnvelope(aead, file).Ok? {
      assert written[|MAGIC|..] == file[|MAGIC|..] + written[|file|..];
      AcceptedIsPrefixFree(aead, file[|MAGIC|..], written[|file|..], 0);
    }
  }

  /** Exchanging two records of a written envelope is noticed whenever it changes the file,
      however much else the key has sealed under other nonces. */
  lemma ExchangedRejected(aead: Aead, log: set<Sealing>, nonces: nat -> Nonce, plain: Bytes, i: nat, j: nat)
    requires Ideal(aead, log) && WriterLog(nonces, Chunks(plain)) <= log && NoncesApart(log, nonces, Chunks(plain))
    requires |plain| < 0x8000_0000_0000_0000 && i < |Chunks(plain)| && j < |Chunks(plain)|
    ensures var records := SealAll(aead, nonces, Chunks(plain));
            var exchanged := records[i := records[j]][j := records[i]];
            OpenEnvelope(aead, Envelope(exchanged, ZERO_NONCE)).Ok? <==> records[i] == records[j]
  {
    hide OpenEnvelope, Envelope, OpenAll, SealChunk, Chunks, Ideal, WriterLog, NoncesApart, UnderOwnNonces;
    var chunks := Chunks(plain);
    var records := SealAll(aead, nonces, chunks);
    var exchanged := records[i := records[j]][j := records[i]];
    ChunksJoin(plain);
    WrittenIsFramed(aead, log, nonces, plain);
    forall r | r in exchanged ensures r in records {
    }
    EnvelopeOpens(aead, exchanged, ZERO_NONCE);
    if OpenAll(aead, exchanged, 0).Some? {
      OwnNonces(aead, nonces, chunks, exchanged);
      OnlyOwnRecordsOpen(aead, log, nonces, chunks, exchanged, 0);
      assert records[0..0 + |exchanged|] == records;
    } else if records[i] == records[j] {
      assert exchanged == records;
      RoundTrip(aead, log, nonces, plain);
    }
  }

  lemma OwnNonces(aead: Aead, nonces: nat -> Nonce, chunks: seq<Bytes>, records: seq<Record>)
    requires forall r <- records :: r in SealAll(aead, nonces, chunks)
    ensures UnderOwnNonces(records, nonces, chunks)
  {
    hide ChunkAad;
    forall r | r in records ensures exists k :: 0 <= k < |chunks| && r.nonce == nonces(k) {
      var k :| 0 <= k < |chunks| && SealAll(aead, nonces, chunks)[k] == r;
    }
  }
}
