// What a complete session leaves behind, and that sessions can be repeated until nothing is left to
// exchange.
module SessionOutcomes {
  import opened Basics
  import opened Text
  import opened VectorClocks
  import opened ConflictPaths
  import opened Chunking
  import opened ChunkingLaws
  import opened CrdtStores
  import opened MergeOrder
  import opened EntryCodec
  import opened Manifests
  import opened FileStores
  import opened Framing
  import opened SyncEngines
  import opened SessionPhases
  import opened SyncSessions
  import opened SessionRuns
  import R = Replication
  import T = TwoNodes
  import Q = Quiescence

  // ---------- Stores stay within the wire format ----------

  ghost predicate StoreClean(s: Store) {
    forall p | p in s :: WireClean(s[p])
  }

  lemma CleanStores(s: Store)
    ensures AllWireClean(AllEntries(s)) <==> StoreClean(s)
  {
    var es := AllEntries(s);
    AllEntriesComplete(s);
    if StoreClean(s) {
      forall i | 0 <= i < |es|
        ensures WireClean(es[i])
      {
        assert es[i] in es;
      }
    }
    if AllWireClean(es) {
      forall p | p in s
        ensures WireClean(s[p])
      {
        var i :| 0 <= i < |es| && es[i] == s[p];
        assert WireClean(es[i]);
      }
    }
  }

  lemma ForkIsClean(m: FileEntry)
    requires WireClean(m)
    ensures WireClean(ForkOf(m))
  {
    ConflictPathShape(m.path, m.lastWriter);
    forall c | c == '\t' || c == '\n'
      ensures c !in ConflictPath(m.path, m.lastWriter)
    {
      assert c !in m.path && c !in m.lastWriter && c !in MARK;
    }
  }

  lemma MergedIsClean(s: Store, m: FileEntry)
    requires StoreClean(s) && WireClean(m)
    ensures StoreClean(Merged(s, m))
  {
    ForkIsClean(m);
    if m.path in s {
      var c := Join(s[m.path].clock, m.clock);
      assert forall n | n in c :: n in s[m.path].clock || n in m.clock;
      assert WireClean(s[m.path]);
      ConflictPathLonger(m.path, m.lastWriter);
      assert WireClean(s[m.path].(clock := c));
    }
  }

  lemma {:induction false} MergeAllClean(s: Store, ms: seq<FileEntry>)
    requires StoreClean(s) && AllWireClean(ms)
    ensures StoreClean(MergeAll(s, ms))
  {
    if ms != [] {
      var init := ms[..|ms| - 1];
      assert AllWireClean(init) by {
        forall i | 0 <= i < |init| ensures WireClean(init[i]) { assert WireClean(ms[i]); }
      }
      MergeAllClean(s, init);
      assert WireClean(ms[|ms| - 1]);
      MergedIsClean(MergeAll(s, init), ms[|ms| - 1]);
    }
  }

  // ---------- Files ----------

  // The version at p is not the one that was there: its content has to be written to disk.
  ghost predicate Replaced(s: Store, t: Store, p: string)
    requires p in t
  {
    !(p in s && t[p].chunkHashes == s[p].chunkHashes && t[p].deleted == s[p].deleted)
  }

  ghost predicate ListsReplaced(s: Store, t: Store, paths: seq<string>) {
    forall p | p in t && Replaced(s, t, p) :: p in paths
  }

  lemma {:induction false} MergePhaseListsReplaced(s: Store, b: Blobs, ms: seq<FileEntry>)
    ensures ListsReplaced(s, MergePhase(s, b, ms).store, MergePhase(s, b, ms).paths)
  {
    if ms != [] {
      MergePhaseListsReplaced(s, b, ms[..|ms| - 1]);
      var before, after := MergePhase(s, b, ms[..|ms| - 1]), MergePhase(s, b, ms);
      ReplacedOnce(before.store, ms[|ms| - 1]);
      assert forall p | p in before.paths :: p in after.paths;
      assert ListsReplaced(before.store, after.store, after.paths);
      ReplacedTwice(s, before.store, after.store, before.paths, after.paths);
    }
  }

  lemma ReplacedTwice(s: Store, t: Store, u: Store, paths: seq<string>, paths': seq<string>)
    requires ListsReplaced(s, t, paths) && ListsReplaced(t, u, paths') && forall p | p in paths :: p in paths'
    ensures ListsReplaced(s, u, paths')
  {
    forall p | p in u && Replaced(s, u, p)
      ensures p in paths'
    {
      assert (p in t && Replaced(s, t, p)) || Replaced(t, u, p);
    }
  }

  lemma ReplacedOnce(s: Store, m: FileEntry)
    ensures forall p | p in Merged(s, m) && Replaced(s, Merged(s, m), p) ::
              (p == m.path && Verdict(s, m).AppliedRemote?) || (p == ForkOf(m).path && Verdict(s, m).ConflictForked?)
  {
    ConflictPathLonger(m.path, m.lastWriter);
  }

  lemma {:induction false} MaterializedMeaning(s: Store, b: Blobs, files: map<string, Bytes>, paths: seq<string>)
    requires Backed(s, b)
    ensures Materialized(s, b, files, paths).Ok?
    ensures var out := Materialized(s, b, files, paths).value;
        && (forall p | p in paths && p in s && s[p].HasContent() :: FileMatches(s[p], b, out, p))
        && (forall p | !(p in paths && p in s && s[p].HasContent()) :: Shown(out, p) == Shown(files, p))
        && (forall p | p !in paths :: (p in out <==> p in files) && (p in out ==> out[p] == files[p]))
  {
    if paths != [] {
      var init, last := paths[..|paths| - 1], paths[|paths| - 1];
      assert paths == init + [last];
      MaterializedMeaning(s, b, files, init);
      if last in s { ReassembleNeedsAll(b, s[last].chunkHashes); }
    }
  }

  // ---------- The end of a session ----------

  lemma ResultStore(x: Peer, y: Peer)
    requires Ready(x) && Ready(y)
    ensures At(x, y, 8).store == MergeAll(x.store, AllEntries(y.store))
    ensures At(x, y, 8).blobs == Received(x.blobs, Sent(x, y))
    ensures At(x, y, 8).nodeId == x.nodeId
    ensures At(x, y, 8).journal == JournalText(AllEntries(At(x, y, 8).store))
    ensures Ok(At(x, y, 8).files) ==
        Materialized(At(x, y, 8).store, At(x, y, 8).blobs, x.files, MergeOf(x, y).paths)
  {
    MergePhaseStore(x.store, x.blobs, AllEntries(y.store));
    FilesMaterialize(x, y);
  }

  // Nothing is lost or changed on the way, and exactly what was missing is transferred: every chunk that
  // arrives belongs to a version of the peer, and every chunk the merged store refers to is there.
  lemma OnlyMissingChunksArrive(h: HashFn, x: Peer, y: Peer)
    requires Ready(x) && Ready(y)
    ensures var p := At(x, y, 8);
        && Keeps(x.blobs, p.blobs) && Backed(p.store, p.blobs)
        && (forall d | d in p.blobs && d !in x.blobs ::
              d in y.blobs && p.blobs[d] == y.blobs[d] && exists e | e in AllEntries(y.store) :: d in e.chunkHashes)
        && (ContentAddressed(h, x.blobs) && ContentAddressed(h, y.blobs) ==> ContentAddressed(h, p.blobs))
  {
    ResultStore(x, y);
    MergePhaseStore(x.store, x.blobs, AllEntries(y.store));
    ExchangeCompletes(x, y);
    ReceivedMeaning(h, x.blobs, Sent(x, y));
    var p := At(x, y, 8);
    forall d | d in p.blobs && d !in x.blobs
      ensures d in y.blobs && p.blobs[d] == y.blobs[d] && exists e | e in AllEntries(y.store) :: d in e.chunkHashes
    {
      assert Blob(d, p.blobs[d]) in Sent(x, y);
      WantedIsListed(x, y, d);
    }
  }

  lemma WantedIsListed(x: Peer, y: Peer, d: Digest)
    requires Ready(x) && Ready(y) && exists b | b in Sent(x, y) :: b.hash == d
    ensures exists e | e in AllEntries(y.store) :: d in e.chunkHashes
  {
    AnswerMeaning(y.blobs, Wanted(x, y));
    RequestMeaning(x, y);
    var m, e :| m in AllEntries(y.store) && e in m.chunkHashes && ToHex(e) == ToHex(d);
    ChunkPathInjective(e, d);
  }

  // The request names the missing chunks of the peer's entries.
  lemma RequestMeaning(x: Peer, y: Peer)
    requires Ready(x) && Ready(y)
    ensures forall d | d in Wanted(x, y) :: ToHex(d) in MergeOf(x, y).neededHex
    ensures Justified(MergeOf(x, y).neededHex, x.blobs, AllEntries(y.store))
  {
    BackedIsCovered(x.store, x.blobs);
    MergePhaseCovers(x.store, x.blobs, AllEntries(y.store));
    NeededIsHex(MergeOf(x, y).neededHex, x.blobs, AllEntries(y.store));
    RequestLists(SortedKeys(MergeOf(x, y).neededHex));
  }

  // Every version with content that a side ends up with is on its disk, byte for byte.
  lemma FilesFollowStore(x: Peer, y: Peer)
    requires Ready(x) && Ready(y) && FilesMatch(x.store, x.blobs, x.files)
    ensures var p := At(x, y, 8); FilesMatch(p.store, p.blobs, p.files)
  {
    var p, paths := At(x, y, 8), MergeOf(x, y).paths;
    ResultStore(x, y);
    OnlyMissingChunksArrive((_: Bytes) => ZERO_DIGEST, x, y);
    MergePhaseStore(x.store, x.blobs, AllEntries(y.store));
    MergePhaseListsReplaced(x.store, x.blobs, AllEntries(y.store));
    MaterializedMeaning(p.store, p.blobs, x.files, paths);
    forall q | q in p.store && p.store[q].HasContent()
      ensures FileMatches(p.store[q], p.blobs, p.files, q)
    {
      if q !in paths {
        assert !Replaced(x.store, p.store, q);
        assert FileMatches(x.store[q], x.blobs, x.files, q);
        FilesStayMatched(x.store[q], x.blobs, p.blobs, x.files, q);
      }
    }
  }

  // Any version that is not deleted is on disk after the session exactly when it has chunks, or when
  // nothing but empty bytes was there before: an adopted empty version leaves the old bytes in place.
  lemma CurrentAfterSession(x: Peer, y: Peer, q: string)
    requires Ready(x) && Ready(y) && FilesMatch(x.store, x.blobs, x.files)
    requires q in At(x, y, 8).store && !At(x, y, 8).store[q].deleted
    ensures var p := At(x, y, 8);
        && HasAll(p.blobs, p.store[q].chunkHashes)
        && (Current(p.store[q], p.blobs, p.files, q) <==> p.store[q].chunkHashes != [] || Shown(x.files, q) == [])
  {
    var p := At(x, y, 8);
    FilesFollowStore(x, y);
    ResultStore(x, y);
    OnlyMissingChunksArrive((_: Bytes) => ZERO_DIGEST, x, y);
    MaterializedMeaning(p.store, p.blobs, x.files, MergeOf(x, y).paths);
    if p.store[q].chunkHashes == [] {
      assert Content(p.blobs, p.store[q].chunkHashes) == [];
    } else {
      assert FileMatches(p.store[q], p.blobs, p.files, q);
    }
  }

  // Restarting right after the session gives back the merged store, and the next session can begin.
  lemma ReadyAgain(x: Peer, y: Peer)
    requires Ready(x) && Ready(y)
    ensures Reload(At(x, y, 8).journal) == Ok(At(x, y, 8).store)
    ensures Ready(Rewound(At(x, y, 8)))
  {
    var p, es := At(x, y, 8), AllEntries(y.store);
    ResultStore(x, y);
    OnlyMissingChunksArrive((_: Bytes) => ZERO_DIGEST, x, y);
    MergeAllKeyed(x.store, es);
    CleanStores(x.store);
    MergeAllClean(x.store, es);
    CleanStores(p.store);
    RestartRestoresStore(p.store);
  }

  // A peer about to start its next session.
  function Rewound(p: Peer): Peer
    requires p.Peer?
  {
    p.(pc := 0)
  }

  // ---------- Edits between sessions ----------

  // A name that the wire format can carry, as a node id or as a path.
  ghost predicate PlainId(n: string) {
    CleanId(n) && '\n' !in n
  }

  ghost predicate PlainName(path: string) {
    '\t' !in path && '\n' !in path
  }

  lemma WrittenIsClean(s: Store, node: string, path: string, e: FileEntry)
    requires StoreClean(s) && PlainId(node) && PlainName(path)
    requires e.path == path && e.lastWriter == node && e.clock == Incremented(ClockAt(s, path), node)
    ensures StoreClean(s[path := e])
  {
    assert path in s ==> WireClean(s[path]);
    assert WireClean(e);
  }

  lemma ChunksAreShort(c: Config, h: HashFn, bytes: Bytes)
    requires c.maxSize < TWO32
    ensures forall x | x in ChunksOf(c, h, bytes, 0) :: |x.data| < TWO32
  {
    var chunks := ChunksOf(c, h, bytes, 0);
    forall x | x in chunks
      ensures |x.data| < TWO32
    {
      var i :| 0 <= i < |chunks| && chunks[i] == x;
      ChunksAreBounded(c, h, bytes, 0, i);
    }
  }

  // Deleting a file leaves a node ready for a session.
  lemma ReadyAfterDelete(p: Peer, path: string)
    requires Ready(p) && PlainId(p.nodeId) && PlainName(path)
    ensures Ready(p.(store := p.store[path := Tombstone(p.store, p.nodeId, path)]))
  {
    var e := Tombstone(p.store, p.nodeId, path);
    CleanStores(p.store);
    WrittenIsClean(p.store, p.nodeId, path, e);
    CleanStores(p.store[path := e]);
  }

  // So does ingesting one, for any content, as long as chunks fit a 32-bit length.
  lemma ReadyAfterIngest(p: Peer, path: string, c: Config, h: HashFn, bytes: Bytes)
    requires Ready(p) && PlainId(p.nodeId) && PlainName(path) && c.maxSize < TWO32
    ensures var e := Ingested(p.store, p.nodeId, path, c, h, bytes);
        Ready(p.(store := p.store[path := e], blobs := PutAll(p.blobs, ChunksOf(c, h, bytes, 0))))
  {
    var e, chunks := Ingested(p.store, p.nodeId, path, c, h, bytes), ChunksOf(c, h, bytes, 0);
    var blobs := PutAll(p.blobs, chunks);
    CleanStores(p.store);
    WrittenIsClean(p.store, p.nodeId, path, e);
    CleanStores(p.store[path := e]);
    PutAllMeaning(h, p.blobs, chunks);
    IngestKeepsBacked(p.store, p.blobs, blobs, e);
    ChunksAreShort(c, h, bytes);
  }

  // ---------- Newer versions and deletes get through ----------

  // No conflict copy of an entry of t has the path p.
  ghost predicate NoForkLands(t: Store, p: string) {
    forall q | q in t :: ForkOf(t[q]).path != p
  }

  ghost predicate OlderAt(s: Store, e: FileEntry) {
    e.path in s ==> Leq(s[e.path].clock, e.clock) && !Leq(e.clock, s[e.path].clock)
  }

  lemma {:induction false} MergesNewer(s: Store, t: Store, p: string, ms: seq<FileEntry>)
    requires Keyed(s) && Keyed(t) && p in t && NoForkLands(t, p) && OlderAt(s, t[p])
    requires forall m | m in ms :: m.path in t && t[m.path] == m
    ensures var u := MergeAll(s, ms);
        if t[p] in ms then p in u && u[p] == t[p] else (p in u <==> p in s) && (p in s ==> u[p] == s[p])
  {
    if ms != [] {
      var init, m := ms[..|ms| - 1], ms[|ms| - 1];
      assert ms == init + [m] && m in ms;
      MergesNewer(s, t, p, init);
      MergeAllKeyed(s, init);
      MergeMeaning(MergeAll(s, init), m);
    }
  }

  // A version that is strictly newer than the peer's, or new to it, is what the peer has after the session,
  // as long as no conflict copy lands on its path.
  lemma NewerVersionArrives(x: Peer, y: Peer, p: string)
    requires Ready(x) && Ready(y) && p in y.store && NoForkLands(y.store, p) && OlderAt(x.store, y.store[p])
    ensures p in At(x, y, 8).store && At(x, y, 8).store[p] == y.store[p]
  {
    ResultStore(x, y);
    AllEntriesComplete(y.store);
    MergesNewer(x.store, y.store, p, AllEntries(y.store));
  }

  function Deleting(y: Peer, p: string): Peer
    requires y.Peer?
  {
    y.(store := y.store[p := Tombstone(y.store, y.nodeId, p)])
  }

  // So a delete reaches a peer that has seen no more of the file than the deleting node: the peer then holds
  // the deleted version too.
  lemma DeleteReachesPeer(x: Peer, y: Peer, p: string)
    requires Ready(x) && Ready(y) && PlainId(y.nodeId) && PlainName(p)
    requires p in x.store ==> Leq(x.store[p].clock, ClockAt(y.store, p))
    requires Get(ClockAt(y.store, p), y.nodeId) + 1 < TWO64 && NoForkLands(Deleting(y, p).store, p)
    ensures Ready(Deleting(y, p))
    ensures var t := At(x, Deleting(y, p), 8).store;
        p in t && IsDelete(t[p], y.store, y.nodeId, p) && t[p].deleted && t[p].chunkHashes == []
  {
    var e := Tombstone(y.store, y.nodeId, p);
    ReadyAfterDelete(y, p);
    EditsAreNewer(y.store, y.nodeId, p, [], ZERO_DIGEST, 0);
    if p in x.store {
      LeqTransitive(x.store[p].clock, ClockAt(y.store, p), e.clock);
      if Leq(e.clock, x.store[p].clock) { LeqTransitive(e.clock, x.store[p].clock, ClockAt(y.store, p)); }
    }
    NewerVersionArrives(x, Deleting(y, p), p);
  }

  // ---------- Sessions between the replicas of a run ----------

  lemma ManifestLists(s: Store)
    ensures Elems(AllEntries(s)) == Q.Entries(s)
  {
    AllEntriesComplete(s);
  }

  // x and y hold the stores of nodes a and b of the system s.
  ghost predicate Embodies(s: R.System, a: string, b: string, x: Peer, y: Peer) {
    Ready(x) && Ready(y) && a in s.stores && b in s.stores && s.stores[a] == x.store && s.stores[b] == y.store
  }

  // Ingesting and deleting are the edits of the replica model.
  lemma EditsAreActions(s: R.System, a: string, path: string, c: Config, h: HashFn, bytes: Bytes)
    requires a in s.stores
    ensures var e, t := Ingested(s.stores[a], a, path, c, h, bytes), Tombstone(s.stores[a], a, path);
        && R.Apply(s, R.Put(a, path, e.chunkHashes, e.merkleRoot, e.size)) == R.System(s.stores[a := s.stores[a][path := e]], s.sent)
        && R.Apply(s, R.Delete(a, path)) == R.System(s.stores[a := s.stores[a][path := t]], s.sent)
  {
    IngestedMeaning(s.stores[a], a, path, c, h, bytes);
  }

  ghost predicate IsCompleteSession(x: Peer, y: Peer, nets: seq<Net>) {
    IsSession(x, y, nets) && |nets| == 17
  }

  ghost function SessionOf(s: R.System, a: string, b: string): R.System
    requires a in s.stores && b in s.stores
  {
    Q.Session(s, a, b, AllEntries(s.stores[a]), AllEntries(s.stores[b]))
  }

  // Every complete interleaving of the protocol has the metadata effect of one abstract session.
  lemma RunIsSession(s: R.System, a: string, b: string, x: Peer, y: Peer, nets: seq<Net>)
    requires a != b && Embodies(s, a, b, x, y) && IsCompleteSession(x, y, nets)
    ensures nets[16] == Ended(x, y)
    ensures Embodies(SessionOf(s, a, b), a, b, Rewound(At(x, y, 8)), Rewound(At(y, x, 8)))
  {
    NeverStuck(x, y, nets);
    ResultStore(x, y);
    ResultStore(y, x);
    ReadyAgain(x, y);
    ReadyAgain(y, x);
  }

  // From any state of any two-node run, two complete protocol runs with no edit in between, each in any
  // interleaving, leave both nodes with the same paths, the same clocks and the same conflict copies.
  lemma TwoRunsSettle(nodes: set<string>, s: R.System, a: string, b: string, x: Peer, y: Peer,
                      first: seq<Net>, second: seq<Net>)
    requires T.Pair(nodes, a, b) && Q.Reachable(nodes, s) && Embodies(s, a, b, x, y)
    requires IsCompleteSession(x, y, first)
    requires IsCompleteSession(Rewound(At(x, y, 8)), Rewound(At(y, x, 8)), second)
    ensures first[16] == Ended(x, y) && second[16].a.Peer? && second[16].b.Peer?
    ensures second[16].a.store.Keys == second[16].b.store.Keys
    ensures forall r | r in second[16].a.store && r in second[16].b.store ::
              var e, f := second[16].a.store[r], second[16].b.store[r];
              Same(e.clock, f.clock) && (!R.UserPath(nodes, r) ==> e == f)
  {
    var x1, y1, s1 := Rewound(At(x, y, 8)), Rewound(At(y, x, 8)), SessionOf(s, a, b);
    RunIsSession(s, a, b, x, y, first);
    RunIsSession(s1, a, b, x1, y1, second);
    ManifestLists(x.store);
    ManifestLists(y.store);
    ManifestLists(x1.store);
    ManifestLists(y1.store);
    Q.TwoSessions(nodes, s, a, b, AllEntries(x.store), AllEntries(y.store), AllEntries(x1.store), AllEntries(y1.store));
    assert Q.Settled(SessionOf(s1, a, b), nodes, a, b);
  }

  // Where the two stores then record the same chunks, both disks hold the same bytes - or two of the
  // blobs they are made of collide.
  lemma SameVersionSameBytes(h: HashFn, x: Peer, y: Peer, p: string)
    requires Ready(x) && Ready(y) && ContentAddressed(h, x.blobs) && ContentAddressed(h, y.blobs)
    requires FilesMatch(x.store, x.blobs, x.files) && FilesMatch(y.store, y.blobs, y.files)
    requires p in x.store && p in y.store && x.store[p].HasContent() && y.store[p].HasContent()
    requires x.store[p].chunkHashes == y.store[p].chunkHashes
    ensures p in x.files && p in y.files
    ensures x.files[p] == y.files[p] || BlobsCollide(h, x.blobs, y.blobs, x.store[p].chunkHashes)
  {
    assert FileMatches(x.store[p], x.blobs, x.files, p) && FileMatches(y.store[p], y.blobs, y.files, p);
    StoresAgree(h, x.blobs, y.blobs, x.store[p].chunkHashes);
  }
}
