// sync_engine.hpp/.cpp: one node's chunker, blob store, entries, journal and materialized files.
module SyncEngines {
  import opened Basics
  import opened Chunking
  import opened ChunkingLaws
  import opened MerkleTrees
  import opened CrdtStores
  import opened FileStores
  import opened Manifests

  // Every chunk that an entry refers to is in the blob store.
  ghost predicate Backed(s: Store, b: Blobs) {
    forall p | p in s :: HasAll(b, s[p].chunkHashes)
  }

  // Every version with content is on disk as its chunks say. Of versions without any it says nothing.
  ghost predicate FilesMatch(s: Store, b: Blobs, files: map<string, Bytes>) {
    forall p | p in s && s[p].HasContent() :: FileMatches(s[p], b, files, p)
  }

  ghost predicate FileMatches(e: FileEntry, b: Blobs, files: map<string, Bytes>, p: string) {
    HasAll(b, e.chunkHashes) && p in files && files[p] == Content(b, e.chunkHashes)
  }

  // What a reader finds at p; a file that is not there reads like an empty one.
  function Shown(files: map<string, Bytes>, p: string): Bytes {
    if p in files then files[p] else []
  }

  // materialize: only a version with content is written out.
  function FilesAfter(e: FileEntry, b: Blobs, files: map<string, Bytes>, p: string): map<string, Bytes>
    requires HasAll(b, e.chunkHashes)
  {
    if e.HasContent() then files[p := Content(b, e.chunkHashes)] else files
  }

  // A deleted version writes nothing, nor does one without chunks; any other is what p shows afterwards.
  lemma WritesOnlyContent(e: FileEntry, b: Blobs, files: map<string, Bytes>, p: string)
    requires HasAll(b, e.chunkHashes)
    ensures e.deleted || e.chunkHashes == [] ==> FilesAfter(e, b, files, p) == files
    ensures !e.deleted && e.chunkHashes != [] ==> Shown(FilesAfter(e, b, files, p), p) == Content(b, e.chunkHashes)
    ensures forall q | q != p :: Shown(FilesAfter(e, b, files, p), q) == Shown(files, q)
  {
  }

  ghost predicate Current(e: FileEntry, b: Blobs, files: map<string, Bytes>, p: string)
    requires HasAll(b, e.chunkHashes)
  {
    Shown(files, p) == Content(b, e.chunkHashes)
  }

  // A version that is not deleted is what the disk shows exactly when it has chunks, or when nothing but
  // empty bytes was there: an empty version is never written out.
  lemma CurrentExactly(e: FileEntry, b: Blobs, files: map<string, Bytes>, p: string)
    requires HasAll(b, e.chunkHashes) && !e.deleted
    ensures Current(e, b, FilesAfter(e, b, files, p), p) <==> e.chunkHashes != [] || Shown(files, p) == []
  {
    if e.chunkHashes == [] { assert Content(b, e.chunkHashes) == []; }
  }

  // So a file that is ingested with content and then emptied still shows what it showed before: its old
  // bytes, unless one of their chunks collided.
  lemma EmptiedFileKeepsOldBytes(c: Config, h: HashFn, b: Blobs, files: map<string, Bytes>, s: Store, node: string, path: string,
                                 bytes: Bytes)
    requires ContentAddressed(h, b) && bytes != []
    ensures var e, b1 := Ingested(s, node, path, c, h, bytes), PutAll(b, ChunksOf(c, h, bytes, 0));
        var e2 := Ingested(s[path := e], node, path, c, h, []);
        && HasAll(b1, e.chunkHashes) && HasAll(b1, e2.chunkHashes)
        && (var shown := Shown(FilesAfter(e2, b1, FilesAfter(e, b1, files, path), path), path);
            && !e2.deleted && Content(b1, e2.chunkHashes) == [] && shown == Content(b1, e.chunkHashes)
            && (shown == bytes || ChunkCollides(h, b1, ChunksOf(c, h, bytes, 0))))
  {
    var chunks := ChunksOf(c, h, bytes, 0);
    PutAllMeaning(h, b, chunks);
    IngestReadsBack(c, h, b, bytes, PutAll(b, chunks));
    assert HashesOf(ChunksOf(c, h, [], 0)) == [];
  }

  // Storing more chunks changes no file that could already be read.
  lemma FilesStayMatched(e: FileEntry, b: Blobs, c: Blobs, files: map<string, Bytes>, p: string)
    requires FileMatches(e, b, files, p) && Keeps(b, c)
    ensures FileMatches(e, c, files, p)
  {
    ReassembleNeedsAll(b, e.chunkHashes);
    ReassembleStable(b, c, e.chunkHashes);
    ReassembleNeedsAll(c, e.chunkHashes);
  }

  lemma OneMoreChunk(b: Blobs, chunks: seq<Chunk>, i: nat)
    requires i < |chunks|
    ensures PutAll(b, chunks[..i + 1]) == Put(PutAll(b, chunks[..i]), chunks[i].hash, chunks[i].data)
  {
    TakeOneMore(chunks, i);
    assert chunks[..i + 1][..i] == chunks[..i];
  }

  lemma OneMoreSize(chunks: seq<Chunk>, i: nat)
    requires i < |chunks|
    ensures |Concat(chunks[..i + 1])| % TWO64 == (|Concat(chunks[..i])| % TWO64 + |chunks[i].data|) % TWO64
  {
    TakeOneMore(chunks, i);
    ConcatSnoc(chunks[..i], chunks[i]);
    RemainderAdds(|Concat(chunks[..i])|, |chunks[i].data|);
  }

  lemma TakeOneMore<T>(s: seq<T>, i: nat)
    requires i < |s|
    ensures s[..i + 1] == s[..i] + [s[i]]
  {
  }

  lemma IngestKeepsBacked(s: Store, b: Blobs, c: Blobs, e: FileEntry)
    requires Keeps(b, c) && HasAll(c, e.chunkHashes)
    ensures Backed(s, b) ==> Backed(s[e.path := e], c)
  {
  }

  lemma IngestKeepsFiles(s: Store, b: Blobs, c: Blobs, files: map<string, Bytes>, e: FileEntry, files': map<string, Bytes>)
    requires FilesMatch(s, b, files) && Keeps(b, c)
    requires e.HasContent() ==> HasAll(c, e.chunkHashes)
    requires files' == if e.HasContent() then files[e.path := Content(c, e.chunkHashes)] else files
    ensures FilesMatch(s[e.path := e], c, files')
  {
    var t := s[e.path := e];
    forall p | p in t && t[p].HasContent()
      ensures FileMatches(t[p], c, files', p)
    {
      if p != e.path {
        assert FileMatches(s[p], b, files, p);
        FilesStayMatched(s[p], b, c, files, p);
      }
    }
  }

  lemma TombstoneKeepsFiles(s: Store, b: Blobs, files: map<string, Bytes>, e: FileEntry)
    requires e.deleted && e.chunkHashes == []
    ensures FilesMatch(s, b, files) ==> FilesMatch(s[e.path := e], b, files)
    ensures Backed(s, b) ==> Backed(s[e.path := e], b)
  {
    if FilesMatch(s, b, files) { IngestKeepsFiles(s, b, b, files, e, files); }
  }

  function RootOf(t: MerkleTree): Digest {
    if t.root.Null? then ZERO_DIGEST else t.root.hash
  }

  // What ingest_file records for these bytes.
  ghost function Ingested(s: Store, node: string, path: string, c: Config, h: HashFn, bytes: Bytes): FileEntry {
    var hashes := HashesOf(ChunksOf(c, h, bytes, 0));
    Written(s, node, path, hashes, RootOf(Build(h, hashes)), |bytes| % TWO64)
  }

  class SyncEngine {
    const nodeId: string
    const chunker: Chunker
    const blobs: FileStore
    const store: CrdtStore
    var journal: string
    // The materialized directory: relative path -> bytes.
    var files: map<string, Bytes>

    ghost predicate Valid()
      reads this
    {
      store.nodeId == nodeId
    }

    constructor (nodeId: string, chunker: Chunker)
      ensures Valid() && this.nodeId == nodeId && this.chunker == chunker && fresh(store) && fresh(blobs)
      ensures store.entries == map[] && blobs.blobs == map[] && files == map[] && journal == ""
    {
      this.nodeId := nodeId;
      this.chunker := chunker;
      blobs := new FileStore();
      store := new CrdtStore(nodeId);
      journal, files := "", map[];
    }

    // A node that starts again over the journal, the chunks and the files it left on disk. With a journal
    // that cannot be read the program throws and there is no engine.
    constructor Restarted(nodeId: string, chunker: Chunker, blobs: FileStore, journal: string, files: map<string, Bytes>)
      requires Reload(journal).Ok?
      ensures Valid() && this.nodeId == nodeId && this.chunker == chunker && fresh(store) && this.blobs == blobs
      ensures Ok(store.entries) == Reload(journal) && this.journal == journal && this.files == files
    {
      this.nodeId, this.chunker, this.blobs := nodeId, chunker, blobs;
      this.journal, this.files := journal, files;
      store := new CrdtStore(nodeId);
      new;
      var _ := LoadJournal(journal, store);
    }

    method SaveJournal()
      modifies this`journal
      ensures journal == JournalText(AllEntries(store.entries))
    {
      journal := JournalLines(store);
    }

    // False stands for the exception of a missing chunk.
    method Materialize(path: string) returns (ok: bool)
      modifies this`files
      ensures ok <==> path in store.entries && store.entries[path].HasContent() ==>
          HasAll(blobs.blobs, store.entries[path].chunkHashes)
      ensures files == if path in store.entries && store.entries[path].HasContent() && HasAll(blobs.blobs, store.entries[path].chunkHashes)
                       then old(files)[path := Content(blobs.blobs, store.entries[path].chunkHashes)]
                       else old(files)
    {
      if path !in store.entries || !store.entries[path].HasContent() { return true; }
      ReassembleNeedsAll(blobs.blobs, store.entries[path].chunkHashes);
      var bytes := blobs.Reassemble(store.entries[path].chunkHashes);
      if bytes.Err? { return false; }
      files := files[path := bytes.value];
      ok := true;
    }

    // The new version is recorded, every chunk is stored, nothing stored before changes, the journal is
    // current, and the file never fails to materialize.
    method IngestFile(path: string, bytes: Bytes) returns (entry: FileEntry)
      requires Valid()
      modifies this, store, blobs
      ensures Valid()
      ensures entry == Ingested(old(store.entries), nodeId, path, chunker.config, chunker.hash, bytes)
      ensures store.entries == old(store.entries)[path := entry]
      ensures entry.size == |bytes| % TWO64 && !entry.deleted && (entry.chunkHashes == [] <==> bytes == [])
      ensures blobs.blobs == PutAll(old(blobs.blobs), ChunksOf(chunker.config, chunker.hash, bytes, 0))
      ensures HasAll(blobs.blobs, entry.chunkHashes) && Keeps(old(blobs.blobs), blobs.blobs)
      ensures old(Backed(store.entries, blobs.blobs)) ==> Backed(store.entries, blobs.blobs)
      ensures old(FilesMatch(store.entries, blobs.blobs, files)) ==> FilesMatch(store.entries, blobs.blobs, files)
      ensures Current(entry, blobs.blobs, files, path) <==> bytes != [] || Shown(old(files), path) == []
      ensures journal == JournalText(AllEntries(store.entries))
      ensures files == if bytes == [] then old(files) else old(files)[path := Content(blobs.blobs, entry.chunkHashes)]
    {
      ghost var s, b, fs := store.entries, blobs.blobs, files;
      var chunks := chunker.Chunk(bytes);
      ChunksOfIsChunking(chunker.config, chunker.hash, bytes, 0);
      assert |Concat(chunks)| == |bytes|;
      var hashes, total := StoreChunks(chunks);
      store.PutLocal(path, hashes, RootOf(Build(chunker.hash, hashes)), total);
      entry := store.entries[path];
      var ok := Materialize(path);
      IngestKeepsBacked(s, b, blobs.blobs, entry);
      CurrentExactly(entry, blobs.blobs, fs, path);
      if FilesMatch(s, b, fs) { IngestKeepsFiles(s, b, blobs.blobs, fs, entry, files); }
      SaveJournal();
    }

    // The loop over the chunks: their bytes are stored, their hashes and total size collected.
    method StoreChunks(chunks: seq<Chunk>) returns (hashes: seq<Digest>, total: u64)
      modifies blobs
      ensures blobs.blobs == PutAll(old(blobs.blobs), chunks)
      ensures HasAll(blobs.blobs, hashes) && Keeps(old(blobs.blobs), blobs.blobs)
      ensures hashes == HashesOf(chunks) && total == |Concat(chunks)| % TWO64
    {
      hashes, total := [], 0;
      var i := 0;
      while i < |chunks|
        invariant 0 <= i <= |chunks|
        invariant blobs.blobs == PutAll(old(blobs.blobs), chunks[..i])
        invariant hashes == HashesOf(chunks)[..i]
        invariant total == |Concat(chunks[..i])| % TWO64
      {
        OneMoreChunk(old(blobs.blobs), chunks, i);
        OneMoreSize(chunks, i);
        TakeOneMore(HashesOf(chunks), i);
        blobs.PutChunk(chunks[i].hash, chunks[i].data);
        hashes := hashes + [chunks[i].hash];
        total := (total + |chunks[i].data|) % TWO64;
        i := i + 1;
      }
      assert chunks[..i] == chunks && hashes == HashesOf(chunks);
      PutAllMeaning(chunker.hash, old(blobs.blobs), chunks);
    }

    method DeleteFile(path: string)
      requires Valid()
      modifies this`journal, store
      ensures Valid()
      ensures store.entries == old(store.entries)[path := Tombstone(old(store.entries), nodeId, path)]
      ensures IsDelete(store.entries[path], old(store.entries), nodeId, path)
      ensures old(Backed(store.entries, blobs.blobs)) ==> Backed(store.entries, blobs.blobs)
      ensures old(FilesMatch(store.entries, blobs.blobs, files)) ==> FilesMatch(store.entries, blobs.blobs, files)
      ensures journal == JournalText(AllEntries(store.entries))
    {
      ghost var s := store.entries;
      store.DeleteLocal(path);
      TombstoneKeepsFiles(s, blobs.blobs, files, Tombstone(s, nodeId, path));
      SaveJournal();
    }
  }

  // ---------- What ingest_file records ----------

  // The number of bytes, modulo 2^64; and the root of the listed hashes, or zeros if there are none.
  lemma IngestedMeaning(s: Store, node: string, path: string, c: Config, h: HashFn, bytes: Bytes)
    ensures var e, chunks := Ingested(s, node, path, c, h, bytes), ChunksOf(c, h, bytes, 0);
        && IsWrite(e, s, node, path, HashesOf(chunks), e.merkleRoot, |bytes| % TWO64)
        && (e.chunkHashes == [] <==> bytes == [])
        && e.merkleRoot == if e.chunkHashes == [] then ZERO_DIGEST else RootHash(h, e.chunkHashes)
  {
    var hashes := HashesOf(ChunksOf(c, h, bytes, 0));
    EditsAreNewer(s, node, path, hashes, RootOf(Build(h, hashes)), |bytes| % TWO64);
    if hashes != [] { BuildRootHash(h, hashes); }
  }

  // In the same place of the two lists are different chunks with the same hash.
  ghost predicate PiecesCollide(h: HashFn, x: seq<Chunk>, y: seq<Chunk>) {
    exists i | 0 <= i < |x| && i < |y| :: x[i].data != y[i].data && h(x[i].data) == h(y[i].data)
  }

  lemma {:induction false} SameHashesSameBytes(h: HashFn, x: seq<Chunk>, y: seq<Chunk>)
    requires |x| == |y| && forall i | 0 <= i < |x| :: x[i].hash == h(x[i].data) && y[i].hash == h(y[i].data)
    requires forall i | 0 <= i < |x| :: x[i].hash == y[i].hash
    ensures Concat(x) == Concat(y) || PiecesCollide(h, x, y)
  {
    if x != [] {
      SameHashesSameBytes(h, x[1..], y[1..]);
      if PiecesCollide(h, x[1..], y[1..]) {
        var i :| 0 <= i < |x[1..]| && x[1..][i].data != y[1..][i].data && h(x[1..][i].data) == h(y[1..][i].data);
        assert x[i + 1].data != y[i + 1].data;
      }
    }
  }

  lemma HashesAt(c: Config, h: HashFn, bytes: Bytes)
    ensures var chunks := ChunksOf(c, h, bytes, 0);
        Concat(chunks) == bytes && forall i | 0 <= i < |chunks| :: chunks[i].hash == h(chunks[i].data) == HashesOf(chunks)[i]
  {
    var chunks := ChunksOf(c, h, bytes, 0);
    ChunksOfIsChunking(c, h, bytes, 0);
    forall i | 0 <= i < |chunks|
      ensures chunks[i].hash == h(chunks[i].data)
    {
      assert WellMade(h, 0, chunks, i);
    }
  }

  // Two versions with as many chunks: the same bytes have the same recorded root, and if the recorded roots
  // are the same, so are the bytes - unless two tree nodes or two chunks in the same place collide.
  lemma RecordedRootsDecide(c: Config, h: HashFn, e: FileEntry, f: FileEntry, x: Bytes, y: Bytes,
                            s: Store, t: Store, i: string, j: string, p: string, q: string)
    requires e == Ingested(s, i, p, c, h, x) && f == Ingested(t, j, q, c, h, y)
    requires |e.chunkHashes| == |f.chunkHashes|
    ensures x == y ==> e.merkleRoot == f.merkleRoot
    ensures e.merkleRoot == f.merkleRoot ==>
        || x == y || CollidesIn(h, Build(h, e.chunkHashes).root, Build(h, f.chunkHashes).root)
        || PiecesCollide(h, ChunksOf(c, h, x, 0), ChunksOf(c, h, y, 0))
  {
    HashesAt(c, h, x);
    HashesAt(c, h, y);
    if x != [] && y != [] {
      RootDecidesEquality(h, e.chunkHashes, f.chunkHashes);
      if e.chunkHashes == f.chunkHashes { SameHashesSameBytes(h, ChunksOf(c, h, x, 0), ChunksOf(c, h, y, 0)); }
    }
  }

  // After ingest_file the recorded hashes reassemble to exactly the ingested bytes - and still do after
  // any later change of the blob store - or one of the chunks collides with what was under its hash.
  lemma IngestReadsBack(c: Config, h: HashFn, b: Blobs, bytes: Bytes, later: Blobs)
    requires ContentAddressed(h, b)
    requires Keeps(PutAll(b, ChunksOf(c, h, bytes, 0)), later)
    ensures ContentAddressed(h, PutAll(b, ChunksOf(c, h, bytes, 0)))
    ensures var chunks := ChunksOf(c, h, bytes, 0);
        Reassembled(later, HashesOf(chunks)) == Ok(bytes) || ChunkCollides(h, PutAll(b, chunks), chunks)
  {
    var chunks := ChunksOf(c, h, bytes, 0);
    ChunksOfIsChunking(c, h, bytes, 0);
    forall x | x in chunks
      ensures x.hash == h(x.data)
    {
      var i :| 0 <= i < |chunks| && chunks[i] == x;
      assert WellMade(h, 0, chunks, i);
    }
    PutAllMeaning(h, b, chunks);
    var b' := PutAll(b, chunks);
    StoredChunksReadBack(h, b', chunks);
    ReassembleNeedsAll(b', HashesOf(chunks));
    ReassembleStable(b', later, HashesOf(chunks));
  }
}
