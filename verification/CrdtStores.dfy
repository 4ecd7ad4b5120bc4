// file_entry.hpp and crdt_store.hpp/.cpp: the replica's path -> entry map and its three operations.
module CrdtStores {
  import opened Basics
  import opened VectorClocks
  import opened ConflictPaths

  datatype FileEntry = FileEntry(
    path: string,
    chunkHashes: seq<Digest>,
    merkleRoot: Digest,
    clock: Clock,
    lastWriter: string,
    deleted: bool,
    size: u64)
  {
    predicate HasContent() {
      !deleted && chunkHashes != []
    }
  }

  // A default-constructed FileEntry.
  const BLANK: FileEntry := FileEntry("", [], ZERO_DIGEST, map[], "", false, 0)

  type Store = map<string, FileEntry>

  datatype MergeOutcome = AppliedRemote | KeptLocal | NoChange | ConflictForked

  datatype MergeResult = MergeResult(outcome: MergeOutcome, path: string, conflictPath: string)

  function ClockAt(s: Store, path: string): Clock {
    if path in s then s[path].clock else map[]
  }

  function Written(s: Store, node: string, path: string, hashes: seq<Digest>, root: Digest, size: u64): FileEntry {
    FileEntry(path, hashes, root, Incremented(ClockAt(s, path), node), node, false, size)
  }

  function Tombstone(s: Store, node: string, path: string): FileEntry {
    (if path in s then s[path] else BLANK)
      .(path := path, deleted := true, chunkHashes := [], lastWriter := node,
        clock := Incremented(ClockAt(s, path), node))
  }

  // The copy of a concurrent remote version kept beside the local one.
  function ForkOf(remote: FileEntry): FileEntry {
    remote.(path := ConflictPath(remote.path, remote.lastWriter))
  }

  ghost function Verdict(s: Store, remote: FileEntry): MergeOutcome {
    if remote.path !in s then AppliedRemote else
    match Order(s[remote.path].clock, remote.clock)
    case Equal => NoChange
    case Before => AppliedRemote
    case After => KeptLocal
    case Concurrent => ConflictForked
  }

  ghost function Merged(s: Store, remote: FileEntry): Store {
    match Verdict(s, remote)
    case NoChange => s
    case KeptLocal => s
    case AppliedRemote => s[remote.path := remote]
    case ConflictForked =>
      var forked := s[ForkOf(remote).path := ForkOf(remote)];
      forked[remote.path := forked[remote.path].(clock := Join(forked[remote.path].clock, remote.clock))]
  }

  // What an edit by node makes of the clock it finds: its own counter goes up by one and wraps at 2^64.
  ghost predicate Advanced(c: Clock, d: Clock, node: string) {
    && Get(d, node) == (if Get(c, node) + 1 < TWO64 then Get(c, node) + 1 else 0)
    && forall n | n != node :: Get(d, n) == Get(c, n)
  }

  // e is what node writes at path.
  ghost predicate IsWrite(e: FileEntry, s: Store, node: string, path: string, hashes: seq<Digest>, root: Digest, size: u64) {
    && e.path == path && !e.deleted && e.lastWriter == node
    && e.chunkHashes == hashes && e.merkleRoot == root && e.size == size
    && Advanced(ClockAt(s, path), e.clock, node)
  }

  // e is what node leaves at path when it deletes what is there: no chunks, but the old root and size.
  ghost predicate IsDelete(e: FileEntry, s: Store, node: string, path: string) {
    && e.path == path && e.deleted && e.lastWriter == node && e.chunkHashes == []
    && (if path in s then e.merkleRoot == s[path].merkleRoot && e.size == s[path].size
        else e.merkleRoot == ZERO_DIGEST && e.size == 0)
    && Advanced(ClockAt(s, path), e.clock, node)
  }

  // What the outcome of a merge tells: how the two clocks compare.
  ghost predicate Reports(outcome: MergeOutcome, s: Store, remote: FileEntry) {
    if remote.path !in s then outcome.AppliedRemote?
    else
      var mine, theirs := s[remote.path].clock, remote.clock;
      && (outcome.NoChange? <==> Leq(mine, theirs) && Leq(theirs, mine))
      && (outcome.AppliedRemote? <==> Leq(mine, theirs) && !Leq(theirs, mine))
      && (outcome.KeptLocal? <==> Leq(theirs, mine) && !Leq(mine, theirs))
      && (outcome.ConflictForked? <==> !Leq(mine, theirs) && !Leq(theirs, mine))
  }

  // Every key names the path of its entry.
  ghost predicate Keyed(s: Store) {
    forall p | p in s :: s[p].path == p
  }

  // Two versions are causally ordered, and a clock identifies its version.
  ghost predicate Chained(e: FileEntry, f: FileEntry) {
    Comparable(e.clock, f.clock) && (Same(e.clock, f.clock) ==> e == f)
  }

  class CrdtStore {
    const nodeId: string
    var entries: Store

    constructor (nodeId: string)
      ensures this.nodeId == nodeId && entries == map[]
    {
      this.nodeId := nodeId;
      entries := map[];
    }

    method PutLocal(path: string, chunkHashes: seq<Digest>, merkleRoot: Digest, size: u64)
      modifies this
      ensures entries == old(entries)[path := Written(old(entries), nodeId, path, chunkHashes, merkleRoot, size)]
      ensures IsWrite(entries[path], old(entries), nodeId, path, chunkHashes, merkleRoot, size)
    {
      var clock := new VectorClock(map[]);
      if path in entries {
        clock := new VectorClock(entries[path].clock);
      }
      clock.Increment(nodeId);
      entries := entries[path := FileEntry(path, chunkHashes, merkleRoot, clock.counters, nodeId, false, size)];
    }

    method DeleteLocal(path: string)
      modifies this
      ensures entries == old(entries)[path := Tombstone(old(entries), nodeId, path)]
      ensures IsDelete(entries[path], old(entries), nodeId, path)
    {
      var entry := BLANK;
      if path in entries {
        entry := entries[path];
      }
      var clock := new VectorClock(entry.clock);
      clock.Increment(nodeId);
      entry := entry.(path := path, deleted := true, chunkHashes := [], lastWriter := nodeId, clock := clock.counters);
      entries := entries[path := entry];
    }

    method MergeRemote(remote: FileEntry) returns (result: MergeResult)
      modifies this
      ensures entries == Merged(old(entries), remote)
      ensures result.outcome == Verdict(old(entries), remote) && result.path == remote.path
      ensures Reports(result.outcome, old(entries), remote)
      ensures result.outcome.ConflictForked? ==> result.conflictPath == ForkOf(remote).path
      ensures !result.outcome.ConflictForked? ==> result.conflictPath == ""
    {
      if remote.path !in entries {
        entries := entries[remote.path := remote];
        return MergeResult(AppliedRemote, remote.path, "");
      }
      var localClock := new VectorClock(entries[remote.path].clock);
      var remoteClock := new VectorClock(remote.clock);
      var order := VectorClock.Compare(localClock, remoteClock);
      match order {
        case Equal =>
          return MergeResult(NoChange, remote.path, "");
        case Before =>
          entries := entries[remote.path := remote];
          return MergeResult(AppliedRemote, remote.path, "");
        case After =>
          return MergeResult(KeptLocal, remote.path, "");
        case Concurrent =>
          var conflictPath := ConflictPath(remote.path, remote.lastWriter);
          var forked := remote.(path := conflictPath);
          entries := entries[conflictPath := forked];
          localClock.Merge(remoteClock);
          ConflictPathLonger(remote.path, remote.lastWriter);
          entries := entries[remote.path := entries[remote.path].(clock := localClock.counters)];
          return MergeResult(ConflictForked, remote.path, conflictPath);
      }
    }

    method LoadEntry(e: FileEntry)
      modifies this
      ensures entries == old(entries)[e.path := e]
    {
      entries := entries[e.path := e];
    }
  }

  // Each outcome is reported in exactly one relation of the two clocks.
  lemma OutcomeMeaning(s: Store, remote: FileEntry)
    ensures Reports(Verdict(s, remote), s, remote)
  {
  }

  // A local write or delete makes a version that is strictly newer than the one it finds - as long as the
  // counter does not wrap.
  lemma EditsAreNewer(s: Store, node: string, path: string, hashes: seq<Digest>, root: Digest, size: u64)
    ensures var e, t, c := Written(s, node, path, hashes, root, size), Tombstone(s, node, path), ClockAt(s, path);
        && IsWrite(e, s, node, path, hashes, root, size) && IsDelete(t, s, node, path)
        && e.clock == t.clock && (Leq(c, e.clock) && !Leq(e.clock, c) <==> Get(c, node) + 1 < TWO64)
  {
    IncrementAdvances(ClockAt(s, path), node);
  }

  // The copy that a conflict keeps differs from the remote version in its path only.
  lemma ForkMeaning(remote: FileEntry)
    ensures ForkOf(remote).(path := remote.path) == remote
    ensures ForkOf(remote).path == ConflictPath(remote.path, remote.lastWriter)
  {
  }

  // What a merge leaves at the merged path: the causal join, and the content of the version that
  // was not strictly older, the local one winning a conflict; the loser of a conflict is kept at
  // its writer's conflict path, and nothing else changes.
  lemma MergeMeaning(s: Store, remote: FileEntry)
    requires Keyed(s)
    ensures Keyed(Merged(s, remote))
    ensures remote.path in Merged(s, remote)
    ensures forall n ::
              Get(Merged(s, remote)[remote.path].clock, n) == Max(Get(ClockAt(s, remote.path), n), Get(remote.clock, n))
    ensures var kept := Merged(s, remote)[remote.path];
        if remote.path !in s || (Leq(s[remote.path].clock, remote.clock) && !Leq(remote.clock, s[remote.path].clock))
        then kept == remote
        else kept.(clock := s[remote.path].clock) == s[remote.path]
    ensures remote.path in s && !Comparable(s[remote.path].clock, remote.clock) <==> Verdict(s, remote).ConflictForked?
    ensures Verdict(s, remote).ConflictForked? ==>
        ForkOf(remote).path in Merged(s, remote) && Merged(s, remote)[ForkOf(remote).path] == ForkOf(remote)
    ensures forall r | r != remote.path && (Verdict(s, remote).ConflictForked? ==> r != ForkOf(remote).path) ::
        (r in s <==> r in Merged(s, remote)) && (r in s ==> Merged(s, remote)[r] == s[r])
  {
    ConflictPathLonger(remote.path, remote.lastWriter);
    if remote.path in s {
      JoinIsLub(s[remote.path].clock, remote.clock);
    }
  }

  // Merging the same remote entry a second time changes nothing and reports no conflict.
  lemma MergeIdempotent(s: Store, remote: FileEntry)
    requires Keyed(s)
    ensures Merged(Merged(s, remote), remote) == Merged(s, remote)
    ensures Verdict(Merged(s, remote), remote) in {NoChange, KeptLocal}
  {
    MergeMeaning(s, remote);
    var t := Merged(s, remote);
    assert Leq(remote.clock, t[remote.path].clock);
  }
}
