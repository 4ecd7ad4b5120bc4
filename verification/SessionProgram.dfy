// network.cpp, run_sync_session as the sequential program it is, proved against the step semantics of
// one peer.
module SessionProgram {
  import opened Basics
  import opened Text
  import opened CrdtStores
  import opened EntryCodec
  import opened Manifests
  import opened FileStores
  import opened Framing
  import opened SyncEngines
  import opened SessionPhases
  import opened SessionLoops
  import opened SyncSessions
  import opened SessionRuns

  // One end of a connection. inbox is all that the other end will ever send: a receive takes its first
  // frame, or fails when there is none left.
  class TcpSocket {
    var inbox: seq<Frame>
    var sent: seq<Frame>

    constructor (inbox: seq<Frame>)
      ensures this.inbox == inbox && sent == []
    {
      this.inbox, sent := inbox, [];
    }

    method SendFrame(f: Frame)
      modifies this`sent
      ensures sent == old(sent) + [f]
    {
      sent := sent + [f];
    }

    method RecvFrame() returns (f: Option<Frame>)
      modifies this`inbox
      ensures old(inbox) == [] ==> f.None? && inbox == []
      ensures old(inbox) != [] ==> f == Some(old(inbox)[0]) && inbox == old(inbox)[1..]
    {
      if inbox == [] { return None; }
      f := Some(inbox[0]);
      inbox := inbox[1..];
    }
  }

  // ---------- One peer, its whole input given ----------

  datatype Outcome = Outcome(peer: Peer, inbox: seq<Frame>, sent: seq<Frame>)

  ghost function Next(o: Outcome): Outcome {
    match MoveOf(o.peer, o.inbox, Failed)
    case Wait => o
    case Go(mine, inbox, out) => Outcome(mine, inbox, o.sent + out)
  }

  ghost function Moved(o: Outcome, n: nat): Outcome {
    Iterated(Next, o, n)
  }

  function Iterated<T>(f: T -> T, x: T, n: nat): T {
    if n == 0 then x else f(Iterated(f, x, n - 1))
  }

  lemma {:induction false} IteratedFixed<T>(f: T -> T, x: T, n: nat)
    requires f(x) == x
    ensures Iterated(f, x, n) == x
  {
    if n > 0 { IteratedFixed(f, x, n - 1); }
  }

  lemma {:induction false} IteratedAdds<T>(f: T -> T, x: T, m: nat, n: nat)
    ensures Iterated(f, Iterated(f, x, m), n) == Iterated(f, x, m + n)
  {
    if n > 0 { IteratedAdds(f, x, m, n - 1); }
  }

  ghost function PeerOf(engine: SyncEngine, pc: nat, neededHex: set<string>, paths: seq<string>, wanted: seq<Digest>): (p: Peer)
    reads engine, engine.store, engine.blobs
    ensures p.Peer?
  {
    Peer(pc, engine.nodeId, engine.store.entries, engine.blobs.blobs, engine.files, engine.journal, neededHex, paths, wanted)
  }

  lemma NextOf(o: Outcome)
    requires o.peer.Peer? && o.peer.pc < 8
    ensures o.peer.pc % 2 == 0 ==>
        Next(o) == Outcome(AfterSend(o.peer), o.inbox, match Outgoing(o.peer) case Some(f) => o.sent + [f] case None => o.sent)
    ensures o.peer.pc % 2 == 1 && o.inbox != [] ==>
        Next(o) == Outcome(AfterReceive(o.peer, o.inbox[0]), o.inbox[1..], o.sent)
    ensures o.peer.pc % 2 == 1 && o.inbox == [] ==>
        Next(o) == Outcome(if o.peer.pc == 7 then o.peer.(pc := 8) else Failed, o.inbox, o.sent)
  {
    assert o.sent + [] == o.sent;
  }

  // n moves from o end in r, or in failure if the program threw.
  ghost predicate Reached(o: Outcome, n: nat, ok: bool, r: Outcome) {
    if ok then Moved(o, n) == r else Moved(o, n).peer.Failed?
  }

  lemma FailedStays(o: Outcome, n: nat)
    requires o.peer.Failed?
    ensures Moved(o, n) == o
  {
    assert Next(o) == o;
    IteratedFixed(Next, o, n);
  }

  lemma FailureLasts(o: Outcome)
    ensures Moved(o, 1) == Next(o)
    ensures Next(o).peer.Failed? ==> Moved(o, 2).peer.Failed?
  {
    MovedAdds(o, 1, 1);
    if Next(o).peer.Failed? { FailedStays(Next(o), 1); }
  }

  lemma MovedAdds(o: Outcome, m: nat, n: nat)
    ensures Moved(Moved(o, m), n) == Moved(o, m + n)
  {
    IteratedAdds(Next, o, m, n);
  }

  // ---------- The program ----------

  // Steps 1 and 2: exchange manifests and merge the peer's.
  method ExchangeManifests(sock: TcpSocket, engine: SyncEngine, ghost wanted: seq<Digest>, ghost hex: set<string>, ghost ps: seq<string>)
    returns (ok: bool, neededHex: set<string>, paths: seq<string>)
    modifies sock, engine.store
    ensures Reached(old(Outcome(PeerOf(engine, 0, hex, ps, wanted), sock.inbox, sock.sent)), 2,
              ok, Outcome(PeerOf(engine, 2, neededHex, paths, wanted), sock.inbox, sock.sent))
  {
    ghost var o := Outcome(PeerOf(engine, 0, hex, ps, wanted), sock.inbox, sock.sent);
    neededHex, paths := {}, [];
    var text := SerializeManifest(engine.nodeId, engine.store);
    sock.SendFrame(Frame(MANIFEST, TextOf(text)));
    NextOf(o);
    assert Moved(o, 1) == Outcome(PeerOf(engine, 1, hex, ps, wanted), sock.inbox, sock.sent);
    var f := sock.RecvFrame();
    NextOf(Moved(o, 1));
    if f.None? || f.value.kind != MANIFEST || !f.value.payload.TextOf? { return false, {}, []; }
    var remote := ParseManifest(f.value.payload.text);
    if remote.Err? { return false, {}, []; }
    neededHex, paths := MergeEntries(engine, remote.value);
    ok := true;
  }

  // Steps 3 and 4, first half: ask for what is missing and hear what the peer misses.
  method ExchangeRequests(sock: TcpSocket, engine: SyncEngine, neededHex: set<string>, ghost paths: seq<string>, ghost was: seq<Digest>)
    returns (ok: bool, wanted: seq<Digest>)
    modifies sock
    ensures Reached(old(Outcome(PeerOf(engine, 2, neededHex, paths, was), sock.inbox, sock.sent)), 2,
              ok, Outcome(PeerOf(engine, 4, neededHex, paths, wanted), sock.inbox, sock.sent))
  {
    ghost var o := Outcome(PeerOf(engine, 2, neededHex, paths, was), sock.inbox, sock.sent);
    wanted := [];
    NextOf(o);
    FailureLasts(o);
    var needed := ListNeeded(neededHex);
    if needed.Err? { return false, []; }
    var text := SerializeHashList(needed.value);
    sock.SendFrame(Frame(CHUNK_REQUEST, TextOf(text)));
    assert Moved(o, 1) == Outcome(PeerOf(engine, 3, neededHex, paths, was), sock.inbox, sock.sent);
    NextOf(Moved(o, 1));
    var f := sock.RecvFrame();
    if f.None? || f.value.kind != CHUNK_REQUEST || !f.value.payload.TextOf? { return false, []; }
    var theirs := ParseHashList(f.value.payload.text);
    if theirs.Err? { return false, []; }
    wanted := theirs.value;
    ok := true;
  }

  // Steps 4, second half, and 5: send what the peer misses and store what it sends.
  method ExchangeChunks(sock: TcpSocket, engine: SyncEngine, wanted: seq<Digest>, ghost neededHex: set<string>, ghost paths: seq<string>)
    returns (ok: bool)
    modifies sock, engine.blobs
    ensures Reached(old(Outcome(PeerOf(engine, 4, neededHex, paths, wanted), sock.inbox, sock.sent)), 2,
              ok, Outcome(PeerOf(engine, 6, neededHex, paths, wanted), sock.inbox, sock.sent))
  {
    ghost var o := Outcome(PeerOf(engine, 4, neededHex, paths, wanted), sock.inbox, sock.sent);
    var bytes := AnswerRequest(engine.blobs, wanted);
    sock.SendFrame(Frame(CHUNK_DATA, BytesOf(bytes)));
    NextOf(o);
    assert Moved(o, 1) == Outcome(PeerOf(engine, 5, neededHex, paths, wanted), sock.inbox, sock.sent);
    var f := sock.RecvFrame();
    NextOf(Moved(o, 1));
    if f.None? || f.value.kind != CHUNK_DATA || !f.value.payload.BytesOf? { return false; }
    ok := StoreChunkData(engine.blobs, f.value.payload.bytes);
  }

  // Step 6: write the files and the journal, and exchange DONE; a missing DONE is not an error.
  method FinishSession(sock: TcpSocket, engine: SyncEngine, paths: seq<string>, ghost neededHex: set<string>, ghost wanted: seq<Digest>)
    returns (ok: bool)
    modifies sock, engine
    ensures Reached(old(Outcome(PeerOf(engine, 6, neededHex, paths, wanted), sock.inbox, sock.sent)), 2,
              ok, Outcome(PeerOf(engine, 8, neededHex, paths, wanted), sock.inbox, sock.sent))
  {
    ghost var o := Outcome(PeerOf(engine, 6, neededHex, paths, wanted), sock.inbox, sock.sent);
    NextOf(o);
    FailureLasts(o);
    ok := MaterializeAll(engine, paths);
    if !ok { return; }
    engine.SaveJournal();
    sock.SendFrame(Frame(DONE, BytesOf([])));
    assert Moved(o, 1) == Outcome(PeerOf(engine, 7, neededHex, paths, wanted), sock.inbox, sock.sent);
    NextOf(Moved(o, 1));
    var _ := sock.RecvFrame();
  }

  // Eight moves in pairs; a peer that has failed stays so.
  lemma Doubled(o: Outcome)
    ensures Moved(o, 8) == Moved(Moved(Moved(Moved(o, 2), 2), 2), 2)
    ensures Moved(o, 2).peer.Failed? || Moved(Moved(o, 2), 2).peer.Failed? || Moved(Moved(Moved(o, 2), 2), 2).peer.Failed?
        ==> Moved(o, 8).peer.Failed?
  {
    MovedAdds(o, 2, 2);
    MovedAdds(o, 4, 2);
    MovedAdds(o, 6, 2);
    if Moved(o, 2).peer.Failed? {
      FailedStays(Moved(o, 2), 6);
      MovedAdds(o, 2, 6);
    } else if Moved(o, 4).peer.Failed? {
      FailedStays(Moved(o, 4), 4);
      MovedAdds(o, 4, 4);
    } else if Moved(o, 6).peer.Failed? {
      FailedStays(Moved(o, 6), 2);
    }
  }

  // ---------- Against a peer that runs the same program ----------

  // Fed with what such a peer sends, the program sends what that peer expects and ends in the state in
  // which every interleaving ends.
  lemma {:induction false} ProgramMeetsPeer(x: Peer, y: Peer, sent: seq<Frame>, k: nat)
    requires Ready(x) && Ready(y) && k <= 8
    ensures Moved(Outcome(x, Frames(y, x), sent), k)
        == Outcome(At(x, y, k), Frames(y, x)[ReceivedBy(k)..], sent + Frames(x, y)[..SentBy(k)])
  {
    if k == 0 {
      assert Frames(x, y)[..0] == [];
    } else {
      ProgramMeetsPeer(x, y, sent, k - 1);
      MoveAgainstAll(x, y, k - 1);
      Continue(Frames(x, y), 0, SentBy(k - 1), SentBy(k));
    }
  }

  lemma MoveAgainstAll(x: Peer, y: Peer, k: nat)
    requires Ready(x) && Ready(y) && k < 8
    ensures MoveOf(At(x, y, k), Frames(y, x)[ReceivedBy(k)..], Failed)
        == Go(At(x, y, k + 1), Frames(y, x)[ReceivedBy(k + 1)..], Frames(x, y)[SentBy(k)..SentBy(k + 1)])
  {
    if k % 2 == 0 { SendStep(x, y, k); } else { ReceiveStep(x, y, k); }
    Moves(At(x, y, k), At(x, y, k + 1), Failed, Frames(y, x), Frames(x, y), k, 8);
  }

  ghost predicate FedBy(y: Peer, x: Peer, inbox: seq<Frame>)
    requires x.Peer?
  {
    Ready(x) && Ready(y) && inbox == Frames(y, x)
  }

  lemma ProgramAgainst(x: Peer, inbox: seq<Frame>, sent: seq<Frame>)
    requires x.Peer?
    ensures forall y | FedBy(y, x, inbox) ::
              Moved(Outcome(x, inbox, sent), 8) == Outcome(At(x, y, 8), [], sent + Frames(x, y))
  {
    forall y | FedBy(y, x, inbox)
      ensures Moved(Outcome(x, inbox, sent), 8) == Outcome(At(x, y, 8), [], sent + Frames(x, y))
    {
      ProgramMeetsPeer(x, y, sent, 8);
      assert Frames(x, y)[..4] == Frames(x, y) && Frames(y, x)[4..] == [];
    }
  }

  // The whole session does exactly the eight moves of the peer. Against a peer that runs the same
  // program it never throws, and it ends where every interleaving ends.
  method RunSyncSession(sock: TcpSocket, engine: SyncEngine)
    returns (ok: bool, neededHex: set<string>, paths: seq<string>, wanted: seq<Digest>)
    modifies sock, engine, engine.store, engine.blobs
    ensures Reached(old(Outcome(PeerOf(engine, 0, {}, [], []), sock.inbox, sock.sent)), 8,
              ok, Outcome(PeerOf(engine, 8, neededHex, paths, wanted), sock.inbox, sock.sent))
    ensures forall y | FedBy(y, old(PeerOf(engine, 0, {}, [], [])), old(sock.inbox)) ::
              && ok && PeerOf(engine, 8, neededHex, paths, wanted) == At(old(PeerOf(engine, 0, {}, [], [])), y, 8)
              && sock.inbox == [] && sock.sent == old(sock.sent) + Frames(old(PeerOf(engine, 0, {}, [], [])), y)
  {
    ghost var o := Outcome(PeerOf(engine, 0, {}, [], []), sock.inbox, sock.sent);
    neededHex, paths, wanted := {}, [], [];
    Doubled(o);
    ProgramAgainst(o.peer, o.inbox, o.sent);
    ok, neededHex, paths := ExchangeManifests(sock, engine, [], {}, []);
    if !ok { return; }
    ok, wanted := ExchangeRequests(sock, engine, neededHex, paths, []);
    if !ok { return; }
    ok := ExchangeChunks(sock, engine, wanted, neededHex, paths);
    if !ok { return; }
    ok := FinishSession(sock, engine, paths, neededHex, wanted);
  }
}
