// network.cpp, run_sync_session: two peers run the same program over two reliable, unbounded FIFO
// channels, in every interleaving.
module SyncSessions {
  import opened Basics
  import opened Text
  import opened VectorClocks
  import opened CrdtStores
  import opened EntryCodec
  import opened Manifests
  import opened FileStores
  import opened Framing
  import opened SyncEngines
  import opened SessionPhases

  datatype Payload = TextOf(text: string) | BytesOf(bytes: Bytes)

  datatype Frame = Frame(kind: byte, payload: Payload)

  const MANIFEST: byte := 1
  const CHUNK_REQUEST: byte := 2
  const CHUNK_DATA: byte := 3
  const DONE: byte := 4

  // pc counts the sends and receives that are behind the peer, alternately, from 0 to 8.
  datatype Peer =
    | Failed
    | Peer(pc: nat, nodeId: string, store: Store, blobs: Blobs, files: map<string, Bytes>, journal: string,
           neededHex: set<string>, paths: seq<string>, wanted: seq<Digest>)

  datatype Net = Net(a: Peer, b: Peer, toA: seq<Frame>, toB: seq<Frame>)

  // ---------- The program of one peer ----------

  predicate Closed(p: Peer) {
    p.Failed? || p.pc >= 8
  }

  // An even pc sends: the frame, or nothing if the program throws before it gets there.
  ghost function Outgoing(p: Peer): Option<Frame>
    requires p.Peer?
  {
    match p.pc
    case 0 => Some(Frame(MANIFEST, TextOf(ManifestText(p.nodeId, AllEntries(p.store)))))
    case 2 => (match RequestOf(SortedKeys(p.neededHex))
               case Ok(ds) => Some(Frame(CHUNK_REQUEST, TextOf(HashListText(ds))))
               case Err => None)
    case 4 => Some(Frame(CHUNK_DATA, BytesOf(ChunkData(Answer(p.blobs, p.wanted)))))
    case _ => if Materialized(p.store, p.blobs, p.files, p.paths).Ok? then Some(Frame(DONE, BytesOf([]))) else None
  }

  ghost function AfterSend(p: Peer): Peer
    requires p.Peer?
  {
    if Outgoing(p).None? then Failed
    else if p.pc == 6 then
      p.(pc := 7, files := Materialized(p.store, p.blobs, p.files, p.paths).value, journal := JournalText(AllEntries(p.store)))
    else p.(pc := p.pc + 1)
  }

  // An odd pc receives.
  ghost function AfterReceive(p: Peer, f: Frame): Peer
    requires p.Peer?
  {
    match p.pc
    case 1 =>
      if f.kind != MANIFEST || !f.payload.TextOf? then Failed
      else (match ParseManifestText(f.payload.text)
            case Err => Failed
            case Ok(es) =>
              var m := MergePhase(p.store, p.blobs, es);
              p.(pc := 2, store := m.store, neededHex := m.neededHex, paths := m.paths))
    case 3 =>
      if f.kind != CHUNK_REQUEST || !f.payload.TextOf? then Failed
      else (match HashesFromText(f.payload.text)
            case Err => Failed
            case Ok(ds) => p.(pc := 4, wanted := ds))
    case 5 =>
      if f.kind != CHUNK_DATA || !f.payload.BytesOf? then Failed
      else (match BlobsFrom(f.payload.bytes, 0)
            case Err => Failed
            case Ok(bs) => p.(pc := 6, blobs := Received(p.blobs, bs)))
    case _ => p.(pc := 8)
  }

  // One step of one side: its next state, its remaining inbox and what it sends. None: it has to wait,
  // or it has finished.
  datatype Move = Wait | Go(mine: Peer, inbox: seq<Frame>, out: seq<Frame>)

  ghost function MoveOf(mine: Peer, inbox: seq<Frame>, other: Peer): Move {
    if Closed(mine) then Wait
    else if mine.pc % 2 == 0 then
      Go(AfterSend(mine), inbox, match Outgoing(mine) case Some(f) => [f] case None => [])
    else if inbox != [] then Go(AfterReceive(mine, inbox[0]), inbox[1..], [])
    else if Closed(other) then Go(if mine.pc == 7 then mine.(pc := 8) else Failed, inbox, [])
    else Wait
  }

  ghost predicate Step(n: Net, n': Net) {
    || (var m := MoveOf(n.a, n.toA, n.b); m.Go? && n' == Net(m.mine, n.b, m.inbox, n.toB + m.out))
    || (var m := MoveOf(n.b, n.toB, n.a); m.Go? && n' == Net(n.a, m.mine, n.toA + m.out, m.inbox))
  }

  // A run of a session between x and y: any interleaving, complete or not.
  ghost predicate IsSession(x: Peer, y: Peer, nets: seq<Net>) {
    && nets != [] && nets[0] == Net(x, y, [], [])
    && forall i | 0 <= i < |nets| - 1 :: Step(nets[i], nets[i + 1])
  }

  // ---------- What every interleaving computes ----------

  // A peer at the start of a session: its store is in order, every chunk it refers to is there, and
  // nothing in it contains a delimiter of the wire format.
  ghost predicate Ready(p: Peer) {
    && p.Peer? && p.pc == 0 && '\n' !in p.nodeId
    && Keyed(p.store) && AllWireClean(AllEntries(p.store))
    && Backed(p.store, p.blobs)
    && forall d | d in p.blobs :: |p.blobs[d]| < TWO32
  }

  ghost function MergeOf(x: Peer, y: Peer): Merge
    requires x.Peer? && y.Peer?
  {
    MergePhase(x.store, x.blobs, AllEntries(y.store))
  }

  ghost function Wanted(x: Peer, y: Peer): seq<Digest>
    requires x.Peer? && y.Peer?
  {
    match RequestOf(SortedKeys(MergeOf(x, y).neededHex))
    case Ok(ds) => ds
    case Err => []
  }

  // What y sends to x.
  ghost function Sent(x: Peer, y: Peer): seq<Blob>
    requires x.Peer? && y.Peer?
  {
    Answer(y.blobs, Wanted(x, y))
  }

  // x once it has merged y's entries, knows what y wants, has y's chunks, and has written its files.
  ghost function WithEntries(x: Peer, y: Peer): (p: Peer)
    requires x.Peer? && y.Peer?
    ensures p.Peer?
  {
    var m := MergeOf(x, y);
    x.(store := m.store, neededHex := m.neededHex, paths := m.paths)
  }

  ghost function WithRequest(x: Peer, y: Peer): (p: Peer)
    requires x.Peer? && y.Peer?
    ensures p.Peer?
  {
    var m := WithEntries(x, y);
    m.(wanted := Wanted(y, x))
  }

  ghost function WithChunks(x: Peer, y: Peer): (p: Peer)
    requires x.Peer? && y.Peer?
    ensures p.Peer?
  {
    var w := WithRequest(x, y);
    w.(blobs := Received(x.blobs, Sent(x, y)))
  }

  ghost function WithFiles(x: Peer, y: Peer): (p: Peer)
    requires x.Peer? && y.Peer?
    ensures p.Peer?
  {
    var r := WithChunks(x, y);
    match Materialized(r.store, r.blobs, r.files, r.paths)
    case Ok(files) => r.(files := files, journal := JournalText(AllEntries(r.store)))
    case Err => r
  }

  // x when it has taken pc steps of its session with y.
  ghost function At(x: Peer, y: Peer, pc: nat): (p: Peer)
    requires x.Peer? && y.Peer?
    ensures p.Peer? && p.pc == pc
  {
    var p :=
      if pc < 2 then x
      else if pc < 4 then WithEntries(x, y)
      else if pc < 6 then WithRequest(x, y)
      else if pc < 7 then WithChunks(x, y)
      else WithFiles(x, y);
    p.(pc := pc)
  }

  // All that x sends to y.
  ghost function Frames(x: Peer, y: Peer): (frames: seq<Frame>)
    requires x.Peer? && y.Peer?
    ensures |frames| == 4
  {
    [Frame(MANIFEST, TextOf(ManifestText(x.nodeId, AllEntries(x.store)))),
     Frame(CHUNK_REQUEST, TextOf(HashListText(Wanted(x, y)))),
     Frame(CHUNK_DATA, BytesOf(ChunkData(Sent(y, x)))),
     Frame(DONE, BytesOf([]))]
  }

  // Frames sent and received by a peer that has taken pc steps.
  function SentBy(pc: nat): nat {
    (pc + 1) / 2
  }

  function ReceivedBy(pc: nat): nat {
    pc / 2
  }

  // The types of a session's frames, 1 to 4 in this order.
  lemma FrameKinds(x: Peer, y: Peer)
    requires x.Peer? && y.Peer?
    ensures var fs := Frames(x, y); fs[0].kind == 1 && fs[1].kind == 2 && fs[2].kind == 3 && fs[3].kind == 4
  {
  }

  // A frame of another type than the one whose turn it is makes the program throw, except for the last one;
  // and so does a peer that hangs up before the last one.
  lemma WrongFrameFails(p: Peer, f: Frame, inbox: seq<Frame>)
    requires p.Peer? && p.pc in {1, 3, 5, 7} && f.kind != (p.pc + 1) / 2
    ensures MoveOf(p, [f] + inbox, p) == Go(if p.pc == 7 then p.(pc := 8) else Failed, inbox, [])
    ensures MoveOf(p, [], Failed) == Go(if p.pc == 7 then p.(pc := 8) else Failed, [], [])
  {
    assert ([f] + inbox)[1..] == inbox;
  }

  // A peer asks for a chunk exactly if it is not there and an entry of the other lists it which, when its
  // turn comes, is new to the peer, strictly newer than what it has, or concurrent with it.
  lemma WantedExactly(x: Peer, y: Peer, d: Digest)
    requires Ready(x) && Ready(y)
    ensures var es := AllEntries(y.store);
        d in Wanted(x, y) <==> d !in x.blobs && exists i: nat | TakenAt(x.store, es, i) :: d in es[i].chunkHashes
  {
    var m, es := MergeOf(x, y), AllEntries(y.store);
    BackedIsCovered(x.store, x.blobs);
    MergePhaseCovers(x.store, x.blobs, es);
    NeededIsHex(m.neededHex, x.blobs, es);
    RequestLists(SortedKeys(m.neededHex));
    MergePhaseAsks(x.store, x.blobs, es);
    assert d in Wanted(x, y) <==> AskedFor(x.store, x.blobs, es, ToHex(d));
    if AskedFor(x.store, x.blobs, es, ToHex(d)) {
      var i: nat :| TakenAt(x.store, es, i) && NamesMissing(x.blobs, es[i], ToHex(d));
      var h :| h in es[i].chunkHashes && h !in x.blobs && ToHex(h) == ToHex(d);
      ChunkPathInjective(h, d);
    }
    if d !in x.blobs && exists i: nat | TakenAt(x.store, es, i) :: d in es[i].chunkHashes {
      var i: nat :| TakenAt(x.store, es, i) && d in es[i].chunkHashes;
      assert NamesMissing(x.blobs, es[i], ToHex(d));
    }
  }

  // A peer that has seen everything the other has asks for nothing and keeps its store as it is.
  lemma CoveredWantsNothing(x: Peer, y: Peer)
    requires x.Peer? && y.Peer? && Keyed(y.store)
    requires forall p | p in y.store :: p in x.store && Leq(y.store[p].clock, x.store[p].clock)
    ensures Wanted(x, y) == [] && Sent(x, y) == [] && MergeOf(x, y) == Merge(x.store, {}, [])
  {
    AllEntriesComplete(y.store);
    NothingToTake(x.store, x.blobs, AllEntries(y.store));
  }

  // What the peer asks for is exactly what its merged store lacks, and all of it comes.
  lemma ExchangeCompletes(x: Peer, y: Peer)
    requires Ready(x) && Ready(y)
    ensures RequestOf(SortedKeys(MergeOf(x, y).neededHex)).Ok?
    ensures forall d | d in Wanted(x, y) :: d !in x.blobs && d in y.blobs
    ensures |Sent(x, y)| == |Wanted(x, y)|
    ensures forall b | b in Sent(x, y) :: b.hash in y.blobs && b.data == y.blobs[b.hash]
    ensures Backed(MergeOf(x, y).store, Received(x.blobs, Sent(x, y)))
  {
    var m, es := MergeOf(x, y), AllEntries(y.store);
    BackedIsCovered(x.store, x.blobs);
    MergePhaseCovers(x.store, x.blobs, es);
    NeededIsHex(m.neededHex, x.blobs, es);
    RequestLists(SortedKeys(m.neededHex));
    forall d | d in Wanted(x, y)
      ensures d !in x.blobs && d in y.blobs
    {
      PeerHasNeeded(x, y, d);
    }
    AnswerMeaning(y.blobs, Wanted(x, y));
    var all := Received(x.blobs, Sent(x, y));
    ReceivedMeaning((_: Bytes) => ZERO_DIGEST, x.blobs, Sent(x, y));
    forall p | p in m.store
      ensures HasAll(all, m.store[p].chunkHashes)
    {
      forall i | 0 <= i < |m.store[p].chunkHashes|
        ensures m.store[p].chunkHashes[i] in all
      {
        var h := m.store[p].chunkHashes[i];
        if h !in x.blobs {
          assert h in Wanted(x, y);
          assert Blob(h, y.blobs[h]) in Sent(x, y);
        }
      }
    }
  }

  lemma BackedIsCovered(s: Store, b: Blobs)
    requires Backed(s, b)
    ensures Covered(s, b, {})
  {
    forall p, h | p in s && h in s[p].chunkHashes
      ensures h in b
    {
      assert HasAll(b, s[p].chunkHashes);
    }
  }

  lemma NeededIsHex(needed: set<string>, b: Blobs, ms: seq<FileEntry>)
    requires Justified(needed, b, ms)
    ensures AllHex(SortedKeys(needed))
  {
    var keys := SortedKeys(needed);
    forall i | 0 <= i < |keys|
      ensures IsHex(keys[i])
    {
      assert keys[i] in needed;
    }
  }

  lemma PeerHasNeeded(x: Peer, y: Peer, d: Digest)
    requires Ready(y) && x.Peer? && Justified(MergeOf(x, y).neededHex, x.blobs, AllEntries(y.store))
    requires ToHex(d) in MergeOf(x, y).neededHex
    ensures d !in x.blobs && d in y.blobs
  {
    var m, h :| m in AllEntries(y.store) && h in m.chunkHashes && h !in x.blobs && ToHex(h) == ToHex(d);
    ChunkPathInjective(h, d);
    AllEntriesComplete(y.store);
    var p :| p in y.store && y.store[p] == m;
    assert HasAll(y.blobs, y.store[p].chunkHashes);
  }
}
