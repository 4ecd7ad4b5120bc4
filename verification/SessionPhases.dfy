// network.cpp, run_sync_session: what each phase of a session computes from the peer's frames.
module SessionPhases {
  import opened Basics
  import opened Text
  import opened VectorClocks
  import opened ConflictPaths
  import opened CrdtStores
  import opened MergeOrder
  import opened EntryCodec
  import opened Manifests
  import opened FileStores
  import opened Framing
  import opened SyncEngines

  // ---------- Merging the peer's manifest ----------

  datatype Merge = Merge(store: Store, neededHex: set<string>, paths: seq<string>)

  function Missing(b: Blobs, hashes: seq<Digest>): set<string> {
    set h | h in hashes && h !in b :: ToHex(h)
  }

  // One entry: an adopted version, or the copy kept of a conflicting one, is to be fetched and written out.
  ghost function MergeStep(before: Merge, b: Blobs, m: FileEntry): Merge {
    var store := Merged(before.store, m);
    match Verdict(before.store, m)
    case AppliedRemote => Merge(store, before.neededHex + Missing(b, m.chunkHashes), before.paths + [m.path])
    case ConflictForked => Merge(store, before.neededHex + Missing(b, m.chunkHashes), before.paths + [ForkOf(m).path])
    case KeptLocal => before.(store := store)
    case NoChange => before.(store := store)
  }

  ghost function MergePhase(s: Store, b: Blobs, ms: seq<FileEntry>): Merge {
    if ms == [] then Merge(s, {}, []) else MergeStep(MergePhase(s, b, ms[..|ms| - 1]), b, ms[|ms| - 1])
  }

  // The request lists the missing hashes in the order of std::set<std::string>.
  function RequestOf(hexes: seq<string>): Result<seq<Digest>> {
    if hexes == [] then Ok([])
    else match (HexToDigest(hexes[0]), RequestOf(hexes[1..]))
      case (Ok(d), Ok(rest)) => Ok([d] + rest)
      case _ => Err
  }

  // ---------- Answering and receiving ----------

  // Requested chunks that are not there are skipped.
  function Answer(b: Blobs, wanted: seq<Digest>): seq<Blob> {
    if wanted == [] then [] else
    var d := wanted[|wanted| - 1];
    Answer(b, wanted[..|wanted| - 1]) + if d in b then [Blob(d, b[d])] else []
  }

  function Received(b: Blobs, blobs: seq<Blob>): Blobs {
    if blobs == [] then b
    else var last := blobs[|blobs| - 1]; Put(Received(b, blobs[..|blobs| - 1]), last.hash, last.data)
  }

  // Err stands for the exception of a missing chunk.
  function Materialized(s: Store, b: Blobs, files: map<string, Bytes>, paths: seq<string>): Result<map<string, Bytes>> {
    if paths == [] then Ok(files)
    else
      var p := paths[|paths| - 1];
      match Materialized(s, b, files, paths[..|paths| - 1])
      case Err => Err
      case Ok(out) =>
        if p !in s || !s[p].HasContent() then Ok(out)
        else match Reassembled(b, s[p].chunkHashes)
          case Ok(bytes) => Ok(out[p := bytes])
          case Err => Err
  }

  // ---------- What the phases guarantee ----------

  lemma {:induction false} MergePhaseStore(s: Store, b: Blobs, ms: seq<FileEntry>)
    ensures MergePhase(s, b, ms).store == MergeAll(s, ms)
  {
    if ms != [] { MergePhaseStore(s, b, ms[..|ms| - 1]); }
  }

  // A replica that holds t takes m over, or keeps a copy of it: what it has there does not cover m.
  ghost predicate Takes(t: Store, m: FileEntry) {
    m.path !in t || !Leq(m.clock, t[m.path].clock)
  }

  // Where it puts m: in place of nothing or of an older version, and beside a concurrent one.
  ghost function LandsAt(t: Store, m: FileEntry): string {
    if m.path !in t || Leq(t[m.path].clock, m.clock) then m.path else ConflictPath(m.path, m.lastWriter)
  }

  // When its turn comes, the i-th entry of ms is taken.
  ghost predicate TakenAt(s: Store, ms: seq<FileEntry>, i: nat) {
    i < |ms| && Takes(MergeAll(s, ms[..i]), ms[i])
  }

  // x names a chunk of m that is not here.
  ghost predicate NamesMissing(b: Blobs, m: FileEntry, x: string) {
    exists h | h in m.chunkHashes :: h !in b && ToHex(h) == x
  }

  ghost predicate AskedFor(s: Store, b: Blobs, ms: seq<FileEntry>, x: string) {
    exists i: nat | TakenAt(s, ms, i) :: NamesMissing(b, ms[i], x)
  }

  ghost predicate AsksExactly(s: Store, b: Blobs, ms: seq<FileEntry>, neededHex: set<string>) {
    forall x :: x in neededHex <==> AskedFor(s, b, ms, x)
  }

  // Which entries of ms are taken, in order.
  ghost predicate IsTaken(s: Store, ms: seq<FileEntry>, idx: seq<nat>) {
    && (forall j | 0 <= j < |idx| :: TakenAt(s, ms, idx[j]))
    && (forall j, k | 0 <= j < k < |idx| :: idx[j] < idx[k])
    && (forall i: nat | TakenAt(s, ms, i) :: i in idx)
  }

  ghost predicate WritesTaken(s: Store, ms: seq<FileEntry>, idx: seq<nat>, paths: seq<string>) {
    && IsTaken(s, ms, idx) && |paths| == |idx|
    && forall j {:trigger paths[j]} | 0 <= j < |idx| :: paths[j] == LandsAt(MergeAll(s, ms[..idx[j]]), ms[idx[j]])
  }

  lemma TakenBefore(s: Store, ms: seq<FileEntry>, i: nat)
    requires ms != [] && i < |ms| - 1
    ensures ms[..|ms| - 1][..i] == ms[..i]
    ensures TakenAt(s, ms, i) <==> TakenAt(s, ms[..|ms| - 1], i)
  {
    assert ms[..|ms| - 1][..i] == ms[..i];
  }

  // The last entry of ms adds its missing chunks and its path exactly when it is taken.
  lemma LastStep(s: Store, b: Blobs, ms: seq<FileEntry>)
    requires ms != []
    ensures var before, after, m := MergePhase(s, b, ms[..|ms| - 1]), MergePhase(s, b, ms), ms[|ms| - 1];
        && (forall x :: x in after.neededHex <==> x in before.neededHex || (TakenAt(s, ms, |ms| - 1) && NamesMissing(b, m, x)))
        && after.paths == before.paths +
             (if TakenAt(s, ms, |ms| - 1) then [LandsAt(MergeAll(s, ms[..|ms| - 1]), m)] else [])
  {
    var init, m := ms[..|ms| - 1], ms[|ms| - 1];
    var before := MergePhase(s, b, init);
    MergePhaseStore(s, b, init);
    OutcomeMeaning(before.store, m);
    ForkMeaning(m);
    MissingNames(b, m);
  }

  lemma MissingNames(b: Blobs, m: FileEntry)
    ensures forall x :: x in Missing(b, m.chunkHashes) <==> NamesMissing(b, m, x)
  {
  }

  lemma AskedLast(s: Store, b: Blobs, ms: seq<FileEntry>, x: string)
    requires ms != []
    ensures AskedFor(s, b, ms, x) <==>
        AskedFor(s, b, ms[..|ms| - 1], x) || (TakenAt(s, ms, |ms| - 1) && NamesMissing(b, ms[|ms| - 1], x))
  {
    var init := ms[..|ms| - 1];
    if AskedFor(s, b, ms, x) {
      var i: nat :| TakenAt(s, ms, i) && NamesMissing(b, ms[i], x);
      if i < |init| { TakenBefore(s, ms, i); }
    }
    if AskedFor(s, b, init, x) {
      var i: nat :| TakenAt(s, init, i) && NamesMissing(b, init[i], x);
      TakenBefore(s, ms, i);
    }
  }

  // Asked for are exactly the chunks that are not here and that an entry lists which, when its turn comes,
  // is new here, strictly newer than what is here, or concurrent with it.
  lemma {:induction false} MergePhaseAsks(s: Store, b: Blobs, ms: seq<FileEntry>)
    ensures AsksExactly(s, b, ms, MergePhase(s, b, ms).neededHex)
  {
    if ms != [] {
      MergePhaseAsks(s, b, ms[..|ms| - 1]);
      LastStep(s, b, ms);
      forall x
        ensures x in MergePhase(s, b, ms).neededHex <==> AskedFor(s, b, ms, x)
      {
        AskedLast(s, b, ms, x);
      }
    }
  }

  // And those entries are written out, in the order of the manifest, where they land.
  lemma {:induction false} MergePhaseWrites(s: Store, b: Blobs, ms: seq<FileEntry>) returns (idx: seq<nat>)
    ensures WritesTaken(s, ms, idx, MergePhase(s, b, ms).paths)
  {
    if ms == [] {
      idx := [];
    } else {
      var before := MergePhaseWrites(s, b, ms[..|ms| - 1]);
      idx := before + if TakenAt(s, ms, |ms| - 1) then [|ms| - 1] else [];
      LastStep(s, b, ms);
      WritesOneMore(s, ms, before, MergePhase(s, b, ms[..|ms| - 1]).paths);
    }
  }

  lemma WritesOneMore(s: Store, ms: seq<FileEntry>, idx: seq<nat>, paths: seq<string>)
    requires ms != [] && WritesTaken(s, ms[..|ms| - 1], idx, paths)
    ensures var taken, at := TakenAt(s, ms, |ms| - 1), LandsAt(MergeAll(s, ms[..|ms| - 1]), ms[|ms| - 1]);
        WritesTaken(s, ms, idx + (if taken then [|ms| - 1] else []), paths + (if taken then [at] else []))
  {
    var n := |ms| - 1;
    var idx' := idx + if TakenAt(s, ms, n) then [n] else [];
    forall j | 0 <= j < |idx|
      ensures TakenAt(s, ms, idx[j]) && idx[j] < n && ms[..n][..idx[j]] == ms[..idx[j]]
    {
      TakenBefore(s, ms, idx[j]);
    }
    forall i: nat | TakenAt(s, ms, i)
      ensures i in idx'
    {
      if i < n { TakenBefore(s, ms, i); assert i in idx; } else { assert idx'[|idx|] == n; }
    }
  }

  // A manifest of which everything is covered already asks for nothing, writes nothing and changes nothing.
  lemma {:induction false} NothingToTake(s: Store, b: Blobs, ms: seq<FileEntry>)
    requires forall m | m in ms :: !Takes(s, m)
    ensures MergePhase(s, b, ms) == Merge(s, {}, [])
  {
    if ms != [] {
      assert ms[|ms| - 1] in ms;
      NothingToTake(s, b, ms[..|ms| - 1]);
      OutcomeMeaning(s, ms[|ms| - 1]);
    }
  }

  // Everything the merged store refers to is here already or is asked for.
  ghost predicate Covered(s: Store, b: Blobs, neededHex: set<string>) {
    forall p, h | p in s && h in s[p].chunkHashes :: h in b || ToHex(h) in neededHex
  }

  // Every request is for the chunk of one of the peer's entries, and for one that is missing here.
  ghost predicate Justified(neededHex: set<string>, b: Blobs, ms: seq<FileEntry>) {
    forall x | x in neededHex :: exists m, h | m in ms && h in m.chunkHashes :: h !in b && ToHex(h) == x
  }

  lemma {:induction false} MergePhaseCovers(s: Store, b: Blobs, ms: seq<FileEntry>)
    requires Covered(s, b, {})
    ensures Covered(MergePhase(s, b, ms).store, b, MergePhase(s, b, ms).neededHex)
    ensures Justified(MergePhase(s, b, ms).neededHex, b, ms)
  {
    if ms != [] {
      var init, m := ms[..|ms| - 1], ms[|ms| - 1];
      assert ms == init + [m];
      MergePhaseCovers(s, b, init);
      var before, after := MergePhase(s, b, init), MergePhase(s, b, ms);
      MergeCovers(before.store, b, before.neededHex, m, after.neededHex);
      forall x | x in after.neededHex
        ensures exists e, h | e in ms && h in e.chunkHashes :: h !in b && ToHex(h) == x
      {
        if x in before.neededHex {
          var e, h :| e in init && h in e.chunkHashes && h !in b && ToHex(h) == x;
          assert e in ms;
        } else {
          var h :| h in m.chunkHashes && h !in b && ToHex(h) == x;
          assert m in ms;
        }
      }
    }
  }

  lemma MergeCovers(s: Store, b: Blobs, needed: set<string>, m: FileEntry, needed': set<string>)
    requires Covered(s, b, needed) && needed <= needed'
    requires Verdict(s, m).AppliedRemote? || Verdict(s, m).ConflictForked? ==> Missing(b, m.chunkHashes) <= needed'
    ensures Covered(Merged(s, m), b, needed')
  {
    var t := Merged(s, m);
    forall p, h | p in t && h in t[p].chunkHashes
      ensures h in b || ToHex(h) in needed'
    {
      if p in s && t[p].chunkHashes == s[p].chunkHashes {
        assert h in b || ToHex(h) in needed;
      } else {
        assert t[p].chunkHashes == m.chunkHashes;
        assert h !in b ==> ToHex(h) in Missing(b, m.chunkHashes);
      }
    }
  }

  ghost predicate AllHex(hexes: seq<string>) {
    forall i | 0 <= i < |hexes| :: IsHex(hexes[i])
  }

  ghost predicate IsHex(x: string) {
    exists d: Digest :: ToHex(d) == x
  }

  lemma {:induction false} RequestLists(hexes: seq<string>)
    requires AllHex(hexes)
    ensures RequestOf(hexes).Ok?
    ensures forall d: Digest :: d in RequestOf(hexes).value <==> ToHex(d) in hexes
  {
    if hexes != [] {
      assert IsHex(hexes[0]);
      var d: Digest :| ToHex(d) == hexes[0];
      DigestRoundTrip(d);
      RequestLists(hexes[1..]);
      var rest := RequestOf(hexes[1..]).value;
      forall e: Digest
        ensures e in RequestOf(hexes).value <==> ToHex(e) in hexes
      {
        if ToHex(e) == ToHex(d) { ChunkPathInjective(e, d); }
      }
    }
  }

  // The digests come in the order of their names.
  lemma {:induction false} RequestInOrder(hexes: seq<string>)
    requires AllHex(hexes)
    ensures RequestOf(hexes).Ok? && Hexes(RequestOf(hexes).value) == hexes
  {
    if hexes != [] {
      assert IsHex(hexes[0]);
      var d: Digest :| ToHex(d) == hexes[0];
      DigestRoundTrip(d);
      RequestInOrder(hexes[1..]);
      assert RequestOf(hexes).value == [d] + RequestOf(hexes[1..]).value;
      assert hexes == [hexes[0]] + hexes[1..];
    }
  }

  // ---------- Answering ----------

  lemma AnswerOne(b: Blobs, d: Digest)
    ensures Answer(b, [d]) == if d in b then [Blob(d, b[d])] else []
  {
    assert [d][..0] == [];
  }

  // The answer is put together request by request, in order: the chunk if it is here, and nothing if not.
  lemma {:induction false} AnswerInOrder(b: Blobs, u: seq<Digest>, v: seq<Digest>)
    ensures Answer(b, u + v) == Answer(b, u) + Answer(b, v)
    ensures forall d: Digest :: Answer(b, [d]) == if d in b then [Blob(d, b[d])] else []
  {
    forall d: Digest ensures Answer(b, [d]) == if d in b then [Blob(d, b[d])] else [] { AnswerOne(b, d); }
    if v == [] {
      assert u + v == u && Answer(b, u) + [] == Answer(b, u);
    } else {
      var init, last := v[..|v| - 1], v[|v| - 1];
      var all := u + v;
      assert all[..|all| - 1] == u + init && all[|all| - 1] == last;
      AnswerInOrder(b, u, init);
      Regrouped(Answer(b, u), Answer(b, init), if last in b then [Blob(last, b[last])] else []);
    }
  }

  lemma {:induction false} AnswerMeaning(b: Blobs, wanted: seq<Digest>)
    ensures forall x | x in Answer(b, wanted) :: x.hash in b && x.data == b[x.hash] && x.hash in wanted
    ensures forall d | d in wanted && d in b :: Blob(d, b[d]) in Answer(b, wanted)
    ensures (forall d | d in wanted :: d in b) ==> |Answer(b, wanted)| == |wanted|
  {
    if wanted != [] {
      var init := wanted[..|wanted| - 1];
      AnswerMeaning(b, init);
      assert wanted == init + [wanted[|wanted| - 1]];
    }
  }

  lemma {:induction false} ReceivedMeaning(h: HashFn, b: Blobs, blobs: seq<Blob>)
    ensures Keeps(b, Received(b, blobs))
    ensures forall x | x in blobs :: x.hash in Received(b, blobs)
    ensures forall d | d in Received(b, blobs) && d !in b :: Blob(d, Received(b, blobs)[d]) in blobs
    ensures ContentAddressed(h, b) && (forall x | x in blobs :: x.hash == h(x.data)) ==> ContentAddressed(h, Received(b, blobs))
  {
    if blobs != [] {
      var init := blobs[..|blobs| - 1];
      ReceivedMeaning(h, b, init);
      assert blobs == init + [blobs[|blobs| - 1]];
    }
  }

  lemma {:induction false} MaterializeNeverFails(s: Store, b: Blobs, files: map<string, Bytes>, paths: seq<string>)
    requires Backed(s, b)
    ensures Materialized(s, b, files, paths).Ok?
  {
    if paths != [] {
      var p := paths[|paths| - 1];
      MaterializeNeverFails(s, b, files, paths[..|paths| - 1]);
      if p in s { ReassembleNeedsAll(b, s[p].chunkHashes); }
    }
  }
}
