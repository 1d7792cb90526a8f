/** Encrypting and decrypting backup files step by step, when any I/O call may fail. */
module EnvelopeFiles {
  import opened Outcomes
  import opened BackupEnvelope

  /** The files of a machine, and which of its I/O calls fail, by their number. */
  class Device {
    var files: map<string, Bytes>
    var calls: nat
    const failing: set<nat>

    constructor (files: map<string, Bytes>, failing: set<nat>)
      ensures this.files == files && this.failing == failing && calls == 0
    {
      this.files, this.failing, calls := files, failing, 0;
    }

    ghost predicate Reliable() {
      failing == {}
    }

    /** A call without effect on the files. */
    method Attempt() returns (ok: bool)
      modifies this`calls
      ensures calls == old(calls) + 1 && ok == (old(calls) !in failing)
    {
      ok := calls !in failing;
      calls := calls + 1;
    }

    /** Appends to an open file; a failed write may leave anything in that file. */
    method Append(path: string, data: Bytes) returns (ok: bool)
      requires path in files
      modifies this
      ensures path in files && files == old(files)[path := files[path]]
      ensures ok ==> files[path] == old(files)[path] + data
      ensures Reliable() ==> ok
    {
      ok := Attempt();
      files := files[path := if ok then files[path] + data else files[path]];
    }
  }

  /** Fills buf from position pos on, as far as the file goes. */
  method ReadFull(file: Bytes, pos: nat, buf: array<byte>) returns (n: nat)
    requires pos <= |file|
    modifies buf
    ensures n == (if |file| - pos < buf.Length then |file| - pos else buf.Length)
    ensures buf[..n] == file[pos..pos + n]
  {
    n := if |file| - pos < buf.Length then |file| - pos else buf.Length;
    forall i | 0 <= i < n {
      buf[i] := file[pos + i];
    }
  }

  /** The buffered writer in front of the temporary file. */
  class Writer {
    const device: Device
    var written: Bytes

    constructor (device: Device)
      ensures this.device == device && written == []
    {
      this.device, written := device, [];
    }

    method Write(data: Bytes) returns (ok: bool)
      modifies this, device`calls
      ensures ok ==> written == old(written) + data
      ensures device.Reliable() ==> ok
    {
      ok := device.Attempt();
      if ok {
        written := written + data;
      }
    }

    method WriteRecord(r: Record) returns (ok: bool)
      modifies this, device`calls
      ensures ok ==> written == old(written) + Encode(r)
      ensures device.Reliable() ==> ok
    {
      ok := Write(r.nonce);
      if !ok { return; }
      ok := Write(BigEndian(4, |r.sealed| % 0x1_0000_0000));
      if !ok { return; }
      ok := Write(r.sealed);
    }
  }

  /** Header, records and terminator: one chunk is read, sealed and written at a time. */
  method WriteEnvelope(w: Writer, aead: Aead, nonces: nat -> Nonce, plain: Bytes) returns (ok: bool)
    requires w.written == []
    modifies w, w.device`calls
    ensures ok ==> w.written == Written(aead, nonces, plain)
    ensures w.device.Reliable() ==> ok
  {
    hide Encode, EncodeAll, ChunkAad, Chunks, SealAll;
    ok := w.Write(MAGIC);
    if !ok { return; }
    ghost var chunks := Chunks(plain);
    ghost var records := SealAll(aead, nonces, chunks);
    EncodeNone();
    var buf := new byte[CHUNK_SIZE];
    var pos, index: nat := 0, 0;
    assert plain[0..] == plain && chunks[0..] == chunks && records[..0] == [];
    while true
      invariant pos <= |plain| && index <= |chunks| && chunks[index..] == Chunks(plain[pos..])
      invariant w.written == MAGIC + EncodeAll(records[..index])
      decreases |plain| - pos
    {
      ok := w.device.Attempt();
      if !ok { return; }
      var n := ReadFull(plain, pos, buf);
      if n == 0 { break; }
      NextChunk(plain, pos, n, chunks, index);
      ok := w.device.Attempt();
      if !ok { return; }
      var nonce := nonces(index);
      var r := Record(nonce, aead.seal(nonce, buf[..n], ChunkAad(index)));
      NextRecord(aead, nonces, chunks, index);
      ok := w.WriteRecord(r);
      if !ok { return; }
      index, pos := index + 1, pos + n;
      if n < CHUNK_SIZE { break; }
    }
    NoChunks(plain[pos..]);
    AllWritten(chunks, records, index);
    ok := w.Write(ZERO_NONCE);
    if !ok { return; }
    ok := w.Write(ZERO_LENGTH);
  }

  lemma AllWritten(chunks: seq<Bytes>, records: seq<Record>, index: nat)
    requires index <= |chunks| == |records| && chunks[index..] == []
    ensures records[..index] == records
  {
  }

  lemma NextChunk(plain: Bytes, pos: nat, n: nat, chunks: seq<Bytes>, index: nat)
    requires pos < |plain| && n == if |plain| - pos < CHUNK_SIZE then |plain| - pos else CHUNK_SIZE
    requires index <= |chunks| && chunks[index..] == Chunks(plain[pos..])
    ensures index < |chunks| && chunks[index] == plain[pos..pos + n] && chunks[index + 1..] == Chunks(plain[pos + n..])
  {
  }

  lemma NextRecord(aead: Aead, nonces: nat -> Nonce, chunks: seq<Bytes>, index: nat)
    requires index < |chunks|
    ensures var records := SealAll(aead, nonces, chunks);
            EncodeAll(records[..index + 1]) == EncodeAll(records[..index]) + Encode(SealChunk(aead, nonces, chunks, index))
  {
    var records := SealAll(aead, nonces, chunks);
    assert records[..index + 1] == records[..index] + [records[index]];
    EncodeAllSnoc(records[..index], records[index]);
  }

  lemma EncodeNone()
    ensures EncodeAll([]) == []
  {
  }

  lemma NoChunks(rest: Bytes)
    ensures rest == [] ==> Chunks(rest) == []
  {
  }

  lemma TemporaryRemoved(files: map<string, Bytes>, tmp: string, content: Bytes, destination: string)
    requires tmp !in files && tmp != destination
    ensures files[tmp := content] - {tmp} == files && files[tmp := content] != files
    ensures files[tmp := content][destination := content] - {tmp} == files[destination := content]
  {
    assert tmp in files[tmp := content];
  }

  /** Whether encryption gets as far as its temporary file. */
  predicate TemporaryMade(files: map<string, Bytes>, calls: nat, failing: set<nat>, key: Bytes, source: string) {
    |key| == 32 && source in files && calls !in failing && calls + 1 !in failing
  }

  /** Writes the envelope beside the destination and renames it into place: either the
      destination is the complete envelope, or no file has changed but the temporary one,
      which stays behind exactly when removing it, the last call, fails too. */
  method EncryptBackupFile(device: Device, cipher: Bytes -> Aead, key: Bytes, nonces: nat -> Nonce,
                           source: string, destination: string, tmp: string)
    returns (r: Result<(), EnvelopeError>)
    requires tmp !in device.files && tmp != destination
    modifies device
    ensures r.Ok? ==>
              && |key| == 32 && source in old(device.files)
              && device.files == old(device.files)[destination := Written(cipher(key), nonces, old(device.files)[source])]
    ensures r.Err? ==>
              var made := TemporaryMade(old(device.files), old(device.calls), device.failing, key, source);
              && (device.files == old(device.files) <==> !made || device.calls - 1 !in device.failing)
              && (device.files != old(device.files) ==>
                    tmp in device.files && device.files == old(device.files)[tmp := device.files[tmp]])
    ensures device.Reliable() ==> (r.Ok? <==> |key| == 32 && source in old(device.files))
  {
    hide Written;
    ghost var before := device.files;
    if |key| != 32 { return Err(BadKey); }
    var ok := device.Attempt();
    if !ok || source !in device.files { return Err(NoSource); }
    var plain := device.files[source];
    ok := device.Attempt();
    if !ok { return Err(IoFailure); }
    device.files := device.files[tmp := []];
    var w := new Writer(device);
    ok := WriteEnvelope(w, cipher(key), nonces, plain);
    device.files := device.files[tmp := w.written];
    assert device.files == before[tmp := w.written];
    TemporaryRemoved(before, tmp, w.written, destination);
    if ok {
      ok := device.Attempt();
    }
    if ok {
      device.files := device.files[destination := device.files[tmp]] - {tmp};
      return Ok(());
    }
    var removed := device.Attempt();
    if removed {
      device.files := device.files - {tmp};
    }
    r := Err(IoFailure);
  }

  lemma PrependNothing(r: Result<Bytes, EnvelopeError>)
    ensures Prepend([], r) == r
  {
    if r.Ok? {
      assert [] + r.value == r.value;
    }
  }

  lemma PrependTwice(a: Bytes, b: Bytes, r: Result<Bytes, EnvelopeError>)
    ensures Prepend(a, Prepend(b, r)) == Prepend(a + b, r)
  {
    if r.Ok? {
      assert a + (b + r.value) == (a + b) + r.value;
    }
  }

  /** Opens the records after the header one by one and appends each plaintext. */
  method ReadEnvelope(device: Device, aead: Aead, file: Bytes, destination: string)
    returns (r: Result<(), EnvelopeError>)
    requires MAGIC <= file && destination in device.files && device.files[destination] == []
    modifies device
    ensures destination in device.files && device.files == old(device.files)[destination := device.files[destination]]
    ensures r.Ok? ==> OpenEnvelope(aead, file) == Ok(device.files[destination])
    ensures device.Reliable() && r.Err? ==> OpenEnvelope(aead, file) == Err(r.error)
  {
    hide FromBigEndian, ChunkAad;
    var pos, index: nat := |MAGIC|, 0;
    ghost var spec := OpenEnvelope(aead, file);
    PrependNothing(OpenRecords(aead, file[pos..], index));
    while true
      invariant |MAGIC| <= pos <= |file|
      invariant destination in device.files && device.files == old(device.files)[destination := device.files[destination]]
      invariant spec == Prepend(device.files[destination], OpenRecords(aead, file[pos..], index))
      decreases |file| - pos
    {
      ghost var rest := file[pos..];
      var ok := device.Attempt();
      if !ok || |file| - pos < 16 { return Err(Truncated); }
      var nonce: Nonce := file[pos..pos + 12];
      assert rest[12..16] == file[pos + 12..pos + 16] && rest[..12] == nonce;
      var length := FromBigEndian(file[pos + 12..pos + 16]);
      if length == 0 {
        ok := device.Attempt();
        if !ok || |file| > pos + 16 { return Err(TrailingData); }
        assert device.files[destination] + [] == device.files[destination];
        break;
      }
      if length > MAX_ENCRYPTED_CHUNK { return Err(ChunkTooLong); }
      ok := device.Attempt();
      if !ok || |file| - pos - 16 < length { return Err(Truncated); }
      var sealed := file[pos + 16..pos + 16 + length];
      assert rest[16..16 + length] == sealed && rest[16 + length..] == file[pos + 16 + length..];
      var plain := aead.open(nonce, sealed, ChunkAad(index));
      if plain.None? { return Err(AuthenticationFailed); }
      ghost var before := device.files[destination];
      ok := device.Append(destination, plain.value);
      if !ok { return Err(IoFailure); }
      index, pos := index + 1, pos + 16 + length;
      PrependTwice(before, plain.value, OpenRecords(aead, file[pos..], index));
    }
    var ok := device.Attempt();
    r := if ok then Ok(()) else Err(IoFailure);
  }

  /** Whether decryption gets as far as its destination file. */
  predicate DestinationMade(files: map<string, Bytes>, calls: nat, failing: set<nat>, key: Bytes, source: string,
                            destination: string) {
    && |key| == 32 && source in files && MAGIC <= files[source] && destination !in files
    && calls !in failing && calls + 1 !in failing && calls + 2 !in failing
  }

  /** Decrypts into a file that must not exist yet: either the whole envelope opens and its
      plaintext is the new file, or no file has changed but that one, which stays behind,
      partly decrypted, exactly when removing it, the last call, fails too. */
  method DecryptBackupFile(device: Device, cipher: Bytes -> Aead, key: Bytes, source: string, destination: string)
    returns (r: Result<(), EnvelopeError>)
    modifies device
    ensures r.Ok? ==>
              && |key| == 32 && source in old(device.files) && destination !in old(device.files)
              && (var outcome := OpenEnvelope(cipher(key), old(device.files)[source]);
                  outcome.Ok? && device.files == old(device.files)[destination := outcome.value])
    ensures r.Err? ==>
              var made := DestinationMade(old(device.files), old(device.calls), device.failing, key, source, destination);
              && (device.files == old(device.files) <==> !made || device.calls - 1 !in device.failing)
              && (device.files != old(device.files) ==>
                    destination in device.files && device.files == old(device.files)[destination := device.files[destination]])
    ensures device.Reliable() && |key| == 32 && source in old(device.files) && destination !in old(device.files) ==>
              var outcome := OpenEnvelope(cipher(key), old(device.files)[source]);
              r.Ok? == outcome.Ok? && (r.Err? ==> r.error == outcome.error)
  {
    hide OpenRecords;
    ghost var before := device.files;
    if |key| != 32 { return Err(BadKey); }
    var ok := device.Attempt();
    if !ok || source !in device.files { return Err(NoSource); }
    var file := device.files[source];
    ok := device.Attempt();
    if !ok || !(MAGIC <= file) { return Err(BadHeader); }
    ok := device.Attempt();
    if !ok || destination in device.files { return Err(DestinationExists); }
    device.files := device.files[destination := []];
    r := ReadEnvelope(device, cipher(key), file, destination);
    if r.Err? {
      assert destination in device.files && destination !in before;
      var removed := device.Attempt();
      if removed {
        device.files := device.files - {destination};
        assert device.files == before;
      }
    }
  }
}
