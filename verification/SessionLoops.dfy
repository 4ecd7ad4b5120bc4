// The loops of run_sync_session (network.cpp), proved against the phase functions of SessionPhases.
module SessionLoops {
  import opened Basics
  import opened Text
  import opened CrdtStores
  import opened ConflictPaths
  import opened EntryCodec
  import opened Manifests
  import opened FileStores
  import opened Framing
  import opened SyncEngines
  import opened SessionPhases

  method AddMissing(blobs: FileStore, hashes: seq<Digest>, neededHex: set<string>) returns (needed: set<string>)
    ensures needed == neededHex + Missing(blobs.blobs, hashes)
  {
    needed := neededHex;
    var i := 0;
    while i < |hashes|
      invariant 0 <= i <= |hashes|
      invariant needed == neededHex + Missing(blobs.blobs, hashes[..i])
    {
      MissingSnoc(blobs.blobs, hashes, i);
      var has := blobs.HasChunk(hashes[i]);
      if !has {
        var hex := DigestToHex(hashes[i]);
        needed := needed + {hex};
      }
      i := i + 1;
    }
    assert hashes[..i] == hashes;
  }

  lemma MissingSnoc(b: Blobs, hashes: seq<Digest>, i: nat)
    requires i < |hashes|
    ensures Missing(b, hashes[..i + 1])
        == Missing(b, hashes[..i]) + if hashes[i] in b then {} else {ToHex(hashes[i])}
  {
    assert hashes[..i + 1] == hashes[..i] + [hashes[i]];
  }

  // Merging the peer's manifest, entry by entry.
  method MergeEntries(engine: SyncEngine, remote: seq<FileEntry>) returns (neededHex: set<string>, paths: seq<string>)
    modifies engine.store
    ensures Merge(engine.store.entries, neededHex, paths)
        == MergePhase(old(engine.store.entries), engine.blobs.blobs, remote)
    ensures AsksExactly(old(engine.store.entries), engine.blobs.blobs, remote, neededHex)
  {
    neededHex, paths := {}, [];
    var i := 0;
    ghost var s, b := engine.store.entries, engine.blobs.blobs;
    while i < |remote|
      invariant 0 <= i <= |remote| && engine.blobs.blobs == b
      invariant Merge(engine.store.entries, neededHex, paths) == MergePhase(s, b, remote[..i])
    {
      assert remote[..i + 1][..i] == remote[..i];
      neededHex, paths := MergeEntry(engine, remote[i], neededHex, paths);
      i := i + 1;
    }
    assert remote[..i] == remote;
    MergePhaseAsks(s, b, remote);
  }

  method MergeEntry(engine: SyncEngine, re: FileEntry, neededHex: set<string>, paths: seq<string>)
    returns (needed: set<string>, paths': seq<string>)
    modifies engine.store
    ensures Merge(engine.store.entries, needed, paths')
        == MergeStep(Merge(old(engine.store.entries), neededHex, paths), engine.blobs.blobs, re)
  {
    needed, paths' := neededHex, paths;
    var r := engine.store.MergeRemote(re);
    match r.outcome {
      case AppliedRemote =>
        needed := AddMissing(engine.blobs, re.chunkHashes, needed);
        paths' := paths' + [re.path];
      case ConflictForked =>
        ConflictPathLonger(re.path, re.lastWriter);
        if r.conflictPath in engine.store.entries {
          var forked := engine.store.entries[r.conflictPath];
          needed := AddMissing(engine.blobs, forked.chunkHashes, needed);
          paths' := paths' + [r.conflictPath];
        }
      case KeptLocal =>
      case NoChange =>
    }
  }

  // The chunks to ask for, in the order of the set of their hex names.
  method ListNeeded(neededHex: set<string>) returns (r: Result<seq<Digest>>)
    ensures r == RequestOf(SortedKeys(neededHex))
  {
    var keys := SortedKeys(neededHex);
    var needed: seq<Digest>, i := [], 0;
    assert keys[0..] == keys;
    PrependedOne(needed, ZERO_DIGEST, RequestOf(keys));
    while i < |keys|
      invariant 0 <= i <= |keys|
      invariant RequestOf(keys) == Prepended(needed, RequestOf(keys[i..]))
    {
      assert keys[i..][1..] == keys[i + 1..];
      var d := ReadDigest(keys[i]);
      if d.Err? { return Err; }
      PrependedOne(needed, d.value, RequestOf(keys[i + 1..]));
      needed := needed + [d.value];
      i := i + 1;
    }
    PrependedOne(needed, ZERO_DIGEST, Ok([]));
    r := Ok(needed);
  }

  method AnswerRequest(blobs: FileStore, wanted: seq<Digest>) returns (payload: Bytes)
    ensures payload == ChunkData(Answer(blobs.blobs, wanted))
  {
    payload := [];
    var i := 0;
    while i < |wanted|
      invariant 0 <= i <= |wanted|
      invariant payload == ChunkData(Answer(blobs.blobs, wanted[..i]))
    {
      assert wanted[..i + 1][..i] == wanted[..i];
      var has := blobs.HasChunk(wanted[i]);
      if has {
        var bytes := blobs.GetChunk(wanted[i]);
        ChunkDataSnoc(Answer(blobs.blobs, wanted[..i]), Blob(wanted[i], bytes.value));
        payload := payload + wanted[i];
        payload := payload + BigEndian32(|bytes.value|);
        payload := payload + bytes.value;
        RecordAppended(ChunkData(Answer(blobs.blobs, wanted[..i])), Blob(wanted[i], bytes.value));
      } else {
        assert Answer(blobs.blobs, wanted[..i + 1]) == Answer(blobs.blobs, wanted[..i]);
      }
      i := i + 1;
    }
    assert wanted[..i] == wanted;
  }

  lemma RecordAppended(before: Bytes, b: Blob)
    ensures before + BlobRecord(b) == before + b.hash + BigEndian32(|b.data|) + b.data
  {
  }

  // The receiving loop with its cursor. False: a record claims more bytes than the payload holds.
  method StoreChunkData(blobs: FileStore, payload: Bytes) returns (ok: bool)
    modifies blobs
    ensures ok <==> BlobsFrom(payload, 0).Ok?
    ensures ok ==> blobs.blobs == Received(old(blobs.blobs), BlobsFrom(payload, 0).value)
  {
    var pos := 0;
    ghost var got: seq<Blob>, b := [], blobs.blobs;
    PrependedOne(got, Blob(ZERO_DIGEST, []), BlobsFrom(payload, 0));
    while pos + 36 <= |payload|
      invariant 0 <= pos <= |payload|
      invariant BlobsFrom(payload, 0) == Prepended(got, BlobsFrom(payload, pos))
      invariant blobs.blobs == Received(b, got)
      decreases |payload| - pos
    {
      var h := payload[pos..pos + 32];
      pos := pos + 32;
      var len := FromBigEndian32(payload[pos..pos + 4]);
      pos := pos + 4;
      if pos + len > |payload| { return false; }
      var data := payload[pos..pos + len];
      pos := pos + len;
      ghost var x := Blob(h, data);
      PrependedOne(got, x, BlobsFrom(payload, pos));
      assert (got + [x])[..|got|] == got;
      got := got + [x];
      blobs.PutChunk(h, data);
    }
    PrependedOne(got, Blob(ZERO_DIGEST, []), Ok([]));
    ok := true;
  }

  // False: a chunk was missing, and the exception leaves the rest unwritten.
  method MaterializeAll(engine: SyncEngine, paths: seq<string>) returns (ok: bool)
    modifies engine`files
    ensures ok ==> Materialized(engine.store.entries, engine.blobs.blobs, old(engine.files), paths) == Ok(engine.files)
    ensures !ok ==> Materialized(engine.store.entries, engine.blobs.blobs, old(engine.files), paths).Err?
  {
    var i := 0;
    ghost var s, b, files := engine.store.entries, engine.blobs.blobs, engine.files;
    while i < |paths|
      invariant 0 <= i <= |paths|
      invariant engine.store.entries == s && engine.blobs.blobs == b
      invariant Materialized(s, b, files, paths[..i]) == Ok(engine.files)
    {
      assert paths[..i + 1][..i] == paths[..i];
      if paths[i] in s { ReassembleNeedsAll(b, s[paths[i]].chunkHashes); }
      var done := engine.Materialize(paths[i]);
      if !done {
        FailureStays(s, b, files, paths, i + 1);
        return false;
      }
      i := i + 1;
    }
    assert paths[..i] == paths;
    ok := true;
  }

  lemma {:induction false} FailureStays(s: Store, b: Blobs, files: map<string, Bytes>, paths: seq<string>, i: nat)
    requires i <= |paths| && Materialized(s, b, files, paths[..i]).Err?
    ensures Materialized(s, b, files, paths).Err?
  {
    if i < |paths| {
      var init := paths[..|paths| - 1];
      assert init[..i] == paths[..i];
      FailureStays(s, b, files, init, i);
    } else {
      assert paths[..i] == paths;
    }
  }
}
