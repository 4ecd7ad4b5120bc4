// file_store.hpp/.cpp: chunk bytes filed under their own hash, written once, and files put together from
// them. The directory of chunk files is a map; to_hex is injective, so a file name stands for one digest.
module FileStores {
  import opened Basics
  import opened Chunking
  import opened ChunkingLaws
  import opened Text

  type Blobs = map<Digest, Bytes>

  // Already there: nothing is written.
  function Put(b: Blobs, hash: Digest, data: Bytes): Blobs {
    if hash in b then b else b[hash := data]
  }

  function PutAll(b: Blobs, chunks: seq<Chunk>): Blobs {
    if chunks == [] then b
    else
      var last := chunks[|chunks| - 1];
      Put(PutAll(b, chunks[..|chunks| - 1]), last.hash, last.data)
  }

  // Err stands for the "missing chunk" exception.
  function Reassembled(b: Blobs, hashes: seq<Digest>): Result<Bytes> {
    if hashes == [] then Ok([])
    else
      var last := hashes[|hashes| - 1];
      match Reassembled(b, hashes[..|hashes| - 1])
      case Ok(out) => if last in b then Ok(out + b[last]) else Err
      case Err => Err
  }

  class FileStore {
    var blobs: Blobs

    constructor ()
      ensures blobs == map[]
    {
      blobs := map[];
    }

    method PutChunk(hash: Digest, data: Bytes)
      modifies this
      ensures blobs == Put(old(blobs), hash, data)
    {
      if hash in blobs { return; }
      blobs := blobs[hash := data];
    }

    method HasChunk(hash: Digest) returns (has: bool)
      ensures has <==> hash in blobs
    {
      has := hash in blobs;
    }

    method GetChunk(hash: Digest) returns (r: Result<Bytes>)
      ensures r == if hash in blobs then Ok(blobs[hash]) else Err
    {
      r := if hash in blobs then Ok(blobs[hash]) else Err;
    }

    method Reassemble(hashes: seq<Digest>) returns (r: Result<Bytes>)
      ensures r == Reassembled(blobs, hashes)
    {
      var out: Bytes, i := [], 0;
      while i < |hashes|
        invariant 0 <= i <= |hashes|
        invariant Reassembled(blobs, hashes[..i]) == Ok(out)
      {
        assert hashes[..i + 1][..i] == hashes[..i];
        var bytes := GetChunk(hashes[i]);
        if bytes.Err? {
          MissingStaysMissing(blobs, hashes, i + 1);
          return Err;
        }
        out := out + bytes.value;
        i := i + 1;
      }
      assert hashes[..i] == hashes;
      r := Ok(out);
    }
  }

  lemma ChunkPathInjective(d: Digest, e: Digest)
    requires ToHex(d) == ToHex(e)
    ensures d == e
  {
    HexRoundTrip(d);
    HexRoundTrip(e);
  }

  lemma {:induction false} MissingStaysMissing(b: Blobs, hashes: seq<Digest>, i: nat)
    requires i <= |hashes| && Reassembled(b, hashes[..i]).Err?
    ensures Reassembled(b, hashes).Err?
  {
    if i < |hashes| {
      var init := hashes[..|hashes| - 1];
      assert init[..i] == hashes[..i];
      MissingStaysMissing(b, init, i);
    } else {
      assert hashes[..i] == hashes;
    }
  }

  // ---------- Content addressing ----------

  // Every blob hashes to its key.
  ghost predicate ContentAddressed(h: HashFn, b: Blobs) {
    forall d | d in b :: h(b[d]) == d
  }

  ghost predicate HasAll(b: Blobs, hashes: seq<Digest>) {
    forall i | 0 <= i < |hashes| :: hashes[i] in b
  }

  // Nothing that was stored is lost or changed.
  ghost predicate Keeps(b: Blobs, c: Blobs) {
    forall d | d in b :: d in c && c[d] == b[d]
  }

  function HashesOf(chunks: seq<Chunk>): (hashes: seq<Digest>)
    ensures |hashes| == |chunks|
  {
    seq(|chunks|, i requires 0 <= i < |chunks| => chunks[i].hash)
  }

  lemma {:induction false} PutAllMeaning(h: HashFn, b: Blobs, chunks: seq<Chunk>)
    ensures Keeps(b, PutAll(b, chunks))
    ensures HasAll(PutAll(b, chunks), HashesOf(chunks))
    ensures forall d | d in PutAll(b, chunks) && d !in b :: exists x | x in chunks :: x.hash == d && x.data == PutAll(b, chunks)[d]
    ensures ContentAddressed(h, b) && (forall x | x in chunks :: x.hash == h(x.data)) ==> ContentAddressed(h, PutAll(b, chunks))
  {
    if chunks != [] {
      var init, last := chunks[..|chunks| - 1], chunks[|chunks| - 1];
      PutAllMeaning(h, b, init);
      assert chunks == init + [last];
      forall i | 0 <= i < |chunks| ensures HashesOf(chunks)[i] in PutAll(b, chunks) {
        if i < |init| { assert HashesOf(init)[i] in PutAll(b, init); }
      }
    }
  }

  lemma HasAllSnoc(b: Blobs, hashes: seq<Digest>)
    requires hashes != []
    ensures HasAll(b, hashes) <==> HasAll(b, hashes[..|hashes| - 1]) && hashes[|hashes| - 1] in b
  {
    var init := hashes[..|hashes| - 1];
    assert forall i | 0 <= i < |init| :: init[i] == hashes[i];
    if HasAll(b, init) && hashes[|hashes| - 1] in b {
      forall i | 0 <= i < |hashes|
        ensures hashes[i] in b
      {
        if i < |init| { assert init[i] in b; }
      }
    }
  }

  // A file can be put together exactly when every chunk is there.
  lemma {:induction false} ReassembleNeedsAll(b: Blobs, hashes: seq<Digest>)
    ensures Reassembled(b, hashes).Ok? <==> HasAll(b, hashes)
  {
    if hashes != [] {
      ReassembleNeedsAll(b, hashes[..|hashes| - 1]);
      HasAllSnoc(b, hashes);
    }
  }

  // The bytes of a version whose chunks are all there.
  function Content(b: Blobs, hashes: seq<Digest>): Bytes
    requires HasAll(b, hashes)
  {
    ReassembleNeedsAll(b, hashes);
    Reassembled(b, hashes).value
  }

  // Writing once: what could be reassembled stays as it was, whatever is stored later.
  lemma {:induction false} ReassembleStable(b: Blobs, c: Blobs, hashes: seq<Digest>)
    requires Keeps(b, c) && Reassembled(b, hashes).Ok?
    ensures Reassembled(c, hashes) == Reassembled(b, hashes)
  {
    if hashes != [] { ReassembleStable(b, c, hashes[..|hashes| - 1]); }
  }

  // Two of the blobs at hand are different and have the same hash.
  ghost predicate BlobsCollide(h: HashFn, b: Blobs, c: Blobs, hashes: seq<Digest>) {
    exists d | d in hashes :: d in b && d in c && b[d] != c[d] && h(b[d]) == h(c[d])
  }

  // One of the chunks was to be stored under the hash of different bytes that are there.
  ghost predicate ChunkCollides(h: HashFn, b: Blobs, chunks: seq<Chunk>) {
    exists k | k in chunks :: k.hash in b && b[k.hash] != k.data && h(b[k.hash]) == h(k.data)
  }

  // Two nodes that both hold the chunks of a version read the same file, or two of the blobs collide.
  lemma {:induction false} StoresAgree(h: HashFn, b: Blobs, c: Blobs, hashes: seq<Digest>)
    requires ContentAddressed(h, b) && ContentAddressed(h, c) && HasAll(b, hashes) && HasAll(c, hashes)
    ensures Reassembled(b, hashes) == Reassembled(c, hashes) || BlobsCollide(h, b, c, hashes)
  {
    if hashes != [] {
      var init, last := hashes[..|hashes| - 1], hashes[|hashes| - 1];
      StoresAgree(h, b, c, init);
      assert hashes == init + [last];
      assert last in hashes && h(b[last]) == last == h(c[last]);
      assert BlobsCollide(h, b, c, init) ==> BlobsCollide(h, b, c, hashes);
    }
  }

  // A version stored under its chunk hashes reads back as the bytes that were chunked, even if some of
  // its chunks were already there - or one of the chunks collides with what is stored under its hash.
  lemma {:induction false} StoredChunksReadBack(h: HashFn, b: Blobs, chunks: seq<Chunk>)
    requires ContentAddressed(h, b) && HasAll(b, HashesOf(chunks))
    requires forall x | x in chunks :: x.hash == h(x.data)
    ensures Reassembled(b, HashesOf(chunks)) == Ok(Concat(chunks)) || ChunkCollides(h, b, chunks)
  {
    if chunks != [] {
      var init, last := chunks[..|chunks| - 1], chunks[|chunks| - 1];
      assert HashesOf(chunks)[..|chunks| - 1] == HashesOf(init);
      assert forall i | 0 <= i < |init| :: HashesOf(init)[i] == HashesOf(chunks)[i];
      StoredChunksReadBack(h, b, init);
      assert HashesOf(chunks)[|chunks| - 1] == last.hash;
      ConcatSnoc(init, last);
      assert chunks == init + [last];
      assert last in chunks && h(b[last.hash]) == last.hash == h(last.data);
      assert ChunkCollides(h, b, init) ==> ChunkCollides(h, b, chunks);
    }
  }

  lemma {:induction false} ConcatSnoc(chunks: seq<Chunk>, x: Chunk)
    ensures Concat(chunks + [x]) == Concat(chunks) + x.data
  {
    if chunks != [] {
      ConcatSnoc(chunks[1..], x);
      assert (chunks + [x])[1..] == chunks[1..] + [x];
    }
  }
}
