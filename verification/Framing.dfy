// network.cpp: the frame header, the list of requested hashes and the chunk data that answers it.
module Framing {
  import opened Basics
  import opened Text
  import opened EntryCodec
  import Manifests

  // ---------- Big-endian lengths ----------

  // static_cast<uint32_t>, then byte by byte from the top.
  function BigEndian32(n: nat): (b: Bytes)
    ensures |b| == 4
  {
    var len := n % TWO32;
    [len / 0x100_0000, len / 0x1_0000 % 256, len / 0x100 % 256, len % 256]
  }

  function FromBigEndian32(b: Bytes): nat
    requires |b| == 4
  {
    (b[0] as int) * 0x100_0000 + (b[1] as int) * 0x1_0000 + (b[2] as int) * 0x100 + b[3] as int
  }

  // The first byte is the most significant.
  lemma BigEndianWeights(n: nat)
    ensures var b := BigEndian32(n);
        0x100_0000 * b[0] as int + 0x1_0000 * b[1] as int + 0x100 * b[2] as int + b[3] as int == n % TWO32
  {
    LengthRoundTrip(n);
  }

  // A length survives the trip exactly when it fits 32 bits; a longer one is cut to its low 32 bits.
  lemma LengthRoundTrip(n: nat)
    ensures FromBigEndian32(BigEndian32(n)) == n % TWO32
    ensures FromBigEndian32(BigEndian32(n)) == n <==> n < TWO32
  {
    var len := n % TWO32;
    var b := BigEndian32(n);
    assert len == 256 * (len / 0x100) + len % 256;
    assert len / 0x100 == 256 * (len / 0x1_0000) + len / 0x100 % 256;
    assert len / 0x1_0000 == 256 * (len / 0x100_0000) + len / 0x1_0000 % 256;
  }

  function Header(kind: byte, payload: Bytes): Bytes {
    BigEndian32(|payload|) + [kind]
  }

  // Four bytes of length, most significant first, and one of type.
  lemma HeaderLayout(kind: byte, payload: Bytes)
    ensures var b := Header(kind, payload);
        && |b| == 5 && b[4] == kind
        && 0x100_0000 * b[0] as int + 0x1_0000 * b[1] as int + 0x100 * b[2] as int + b[3] as int == |payload| % TWO32
  {
    BigEndianWeights(|payload|);
  }

  // recv_frame on everything that is still to come: a frame and the rest, or nothing yet.
  function TakeFrame(input: Bytes): Option<(byte, Bytes, Bytes)> {
    if |input| < 5 then None
    else
      var len := FromBigEndian32(input[..4]);
      if |input| < 5 + len then None else Some((input[4], input[5..5 + len], input[5 + len..]))
  }

  // Frames are self-delimiting: what was sent is what is received, and nothing after it is touched.
  lemma FrameRoundTrip(kind: byte, payload: Bytes, more: Bytes)
    requires |payload| < TWO32
    ensures TakeFrame(Header(kind, payload) + payload + more) == Some((kind, payload, more))
  {
    var input := Header(kind, payload) + payload + more;
    LengthRoundTrip(|payload|);
    assert input[..4] == BigEndian32(|payload|);
    assert input[5..5 + |payload|] == payload && input[5 + |payload|..] == more;
  }

  // As long as a byte of a frame is still to come, there is no frame.
  lemma PartOfFrame(kind: byte, payload: Bytes, k: nat)
    requires |payload| < TWO32 && k < 5 + |payload|
    ensures TakeFrame((Header(kind, payload) + payload)[..k]).None?
  {
    var part := (Header(kind, payload) + payload)[..k];
    LengthRoundTrip(|payload|);
    if k >= 5 { assert part[..4] == BigEndian32(|payload|); }
  }

  // ---------- Requested hashes ----------

  function HashListText(ds: seq<Digest>): string {
    JoinWith(Hexes(ds), '\n')
  }

  function HashesFromText(text: string): Result<seq<Digest>> {
    Digests(Split(text, '\n'))
  }

  lemma HashListRoundTrip(ds: seq<Digest>)
    ensures HashesFromText(HashListText(ds)) == Ok(ds)
  {
    HexesRoundTrip(ds);
    if ds != [] { SplitJoin(Hexes(ds), '\n'); }
  }

  // A request is one name a line, in the order of the list.
  lemma HashListLines(ds: seq<Digest>, i: nat)
    requires i < |ds|
    ensures var lines := Split(HashListText(ds), '\n'); |lines| == |ds| && lines[i] == ToHex(ds[i])
  {
    HexesRoundTrip(ds);
    SplitJoin(Hexes(ds), '\n');
    HexesAt(ds, i);
  }

  method SerializeHashList(hashes: seq<Digest>) returns (text: string)
    ensures text == HashListText(hashes)
  {
    text := "";
    var i := 0;
    while i < |hashes|
      invariant 0 <= i <= |hashes|
      invariant text == HashListText(hashes[..i])
    {
      Manifests.HexesSnoc(hashes, i);
      JoinSnoc(Hexes(hashes[..i]), ToHex(hashes[i]), '\n');
      if i != 0 { text := text + "\n"; }
      var hex := DigestToHex(hashes[i]);
      text := text + hex;
      i := i + 1;
    }
    assert hashes[..i] == hashes;
  }

  method ParseHashList(text: string) returns (r: Result<seq<Digest>>)
    ensures r == HashesFromText(text)
  {
    r := Manifests.ReadDigests(text, '\n');
  }

  // sha256::to_hex
  method DigestToHex(d: Bytes) returns (s: string)
    ensures s == ToHex(d)
  {
    s := "";
    var i := 0;
    while i < |d|
      invariant 0 <= i <= |d| && s == ToHex(d[..i])
    {
      ToHexSnoc(d[..i], d[i]);
      assert d[..i + 1] == d[..i] + [d[i]];
      s := s + [HexDigit(d[i] / 16), HexDigit(d[i] % 16)];
      i := i + 1;
    }
    assert d[..i] == d;
  }

  lemma {:induction false} ToHexSnoc(d: Bytes, b: byte)
    ensures ToHex(d + [b]) == ToHex(d) + [HexDigit(b / 16), HexDigit(b % 16)]
  {
    if d != [] {
      ToHexSnoc(d[1..], b);
      assert (d + [b])[1..] == d[1..] + [b];
    }
  }

  // ---------- Chunk data ----------

  datatype Blob = Blob(hash: Digest, data: Bytes)

  function BlobRecord(b: Blob): Bytes {
    b.hash + BigEndian32(|b.data|) + b.data
  }

  function ChunkData(blobs: seq<Blob>): Bytes {
    if blobs == [] then [] else BlobRecord(blobs[0]) + ChunkData(blobs[1..])
  }

  // A chunk on the wire: its hash, the length of its bytes, its bytes; chunks follow one another.
  lemma ChunkDataLayout(b: Blob, more: seq<Blob>)
    ensures var n, p := |b.data|, ChunkData([b] + more);
        && |p| == 36 + n + |ChunkData(more)|
        && p[..32] == b.hash && p[36..36 + n] == b.data && p[36 + n..] == ChunkData(more)
        && 0x100_0000 * p[32] as int + 0x1_0000 * p[33] as int + 0x100 * p[34] as int + p[35] as int == n % TWO32
  {
    BigEndianWeights(|b.data|);
    assert ([b] + more)[1..] == more;
  }

  // The receiving loop from cursor pos. A record that claims more bytes than the payload holds would be
  // read past its end; the model stops with an error there.
  function BlobsFrom(payload: Bytes, pos: nat): Result<seq<Blob>>
    requires pos <= |payload|
    decreases |payload| - pos
  {
    if pos + 36 > |payload| then Ok([])
    else
      var len := FromBigEndian32(payload[pos + 32..pos + 36]);
      if pos + 36 + len > |payload| then Err
      else match BlobsFrom(payload, pos + 36 + len)
        case Ok(rest) => Ok([Blob(payload[pos..pos + 32], payload[pos + 36..pos + 36 + len])] + rest)
        case Err => Err
  }

  lemma RecordAt(payload: Bytes, pos: nat, b: Blob, more: Bytes)
    requires pos <= |payload| && payload[pos..] == BlobRecord(b) + more
    ensures var len := |b.data|;
        && pos + 36 + len <= |payload|
        && payload[pos..pos + 32] == b.hash
        && payload[pos + 32..pos + 36] == BigEndian32(len)
        && payload[pos + 36..pos + 36 + len] == b.data
        && payload[pos + 36 + len..] == more
  {
    var len, rest := |b.data|, payload[pos..];
    assert payload[pos..pos + 32] == rest[..32];
    assert payload[pos + 32..pos + 36] == rest[32..36];
    assert payload[pos + 36..pos + 36 + len] == rest[36..36 + len];
    assert payload[pos + 36 + len..] == rest[36 + len..];
  }

  lemma BlobsFromRecord(payload: Bytes, pos: nat, b: Blob, more: Bytes)
    requires pos <= |payload| && payload[pos..] == BlobRecord(b) + more && |b.data| < TWO32
    ensures var next := pos + 36 + |b.data|;
        && next <= |payload| && payload[next..] == more
        && BlobsFrom(payload, pos) == Manifests.Prepended([b], BlobsFrom(payload, next))
  {
    LengthRoundTrip(|b.data|);
    RecordAt(payload, pos, b, more);
  }

  ghost predicate AllShort(blobs: seq<Blob>) {
    forall i | 0 <= i < |blobs| :: |blobs[i].data| < TWO32
  }

  lemma SplitFirst(blobs: seq<Blob>)
    requires blobs != [] && AllShort(blobs)
    ensures |blobs[0].data| < TWO32 && AllShort(blobs[1..]) && [blobs[0]] + blobs[1..] == blobs
    ensures ChunkData(blobs) == BlobRecord(blobs[0]) + ChunkData(blobs[1..])
  {
  }

  // From pos on the payload holds the records of blobs, and then more.
  ghost predicate RecordsAt(payload: Bytes, pos: nat, blobs: seq<Blob>, more: Bytes) {
    pos <= |payload| && payload[pos..] == ChunkData(blobs) + more
  }

  lemma NoRecord(payload: Bytes, pos: nat, more: Bytes)
    requires RecordsAt(payload, pos, [], more) && |more| < 36
    ensures BlobsFrom(payload, pos) == Ok([])
  {
    assert |payload[pos..]| == |more|;
  }

  lemma FirstRecord(payload: Bytes, pos: nat, blobs: seq<Blob>, more: Bytes)
    requires blobs != [] && AllShort(blobs) && RecordsAt(payload, pos, blobs, more)
    ensures |blobs[0].data| < TWO32 && AllShort(blobs[1..])
    ensures payload[pos..] == BlobRecord(blobs[0]) + (ChunkData(blobs[1..]) + more)
  {
    SplitFirst(blobs);
    Manifests.Regrouped(BlobRecord(blobs[0]), ChunkData(blobs[1..]), more);
  }

  lemma OneRecord(payload: Bytes, pos: nat, b: Blob, rest: seq<Blob>, more: Bytes) returns (next: nat)
    requires pos <= |payload| && payload[pos..] == BlobRecord(b) + (ChunkData(rest) + more) && |b.data| < TWO32
    ensures RecordsAt(payload, next, rest, more)
    ensures BlobsFrom(payload, pos) == Manifests.Prepended([b], BlobsFrom(payload, next))
  {
    var tail := ChunkData(rest) + more;
    next := pos + 36 + |b.data|;
    BlobsFromRecord(payload, pos, b, tail);
  }

  lemma {:induction false} BlobsFromRecords(payload: Bytes, pos: nat, blobs: seq<Blob>, more: Bytes)
    requires RecordsAt(payload, pos, blobs, more) && |more| < 36 && AllShort(blobs)
    ensures BlobsFrom(payload, pos) == Ok(blobs)
    decreases |blobs|
  {
    if blobs == [] {
      NoRecord(payload, pos, more);
    } else {
      FirstRecord(payload, pos, blobs, more);
      var next := OneRecord(payload, pos, blobs[0], blobs[1..], more);
      BlobsFromRecords(payload, next, blobs[1..], more);
      FirstAndRest(blobs[0], blobs[1..], blobs);
    }
  }

  lemma FirstAndRest(b: Blob, rest: seq<Blob>, blobs: seq<Blob>)
    requires [b] + rest == blobs
    ensures Manifests.Prepended([b], Ok(rest)) == Ok(blobs)
  {
  }

  // The receiver recovers exactly the blobs that were sent, in order, using up the whole payload. Fewer than
  // 36 bytes after them are ignored.
  lemma ChunkDataRoundTrip(blobs: seq<Blob>)
    requires forall i | 0 <= i < |blobs| :: |blobs[i].data| < TWO32
    ensures BlobsFrom(ChunkData(blobs), 0) == Ok(blobs)
    ensures forall more: Bytes | |more| < 36 :: BlobsFrom(ChunkData(blobs) + more, 0) == Ok(blobs)
  {
    forall more: Bytes | |more| < 36
      ensures BlobsFrom(ChunkData(blobs) + more, 0) == Ok(blobs)
    {
      BlobsFromRecords(ChunkData(blobs) + more, 0, blobs, more);
    }
    assert ChunkData(blobs) + [] == ChunkData(blobs);
  }

  lemma {:induction false} ChunkDataSnoc(blobs: seq<Blob>, b: Blob)
    ensures ChunkData(blobs + [b]) == ChunkData(blobs) + BlobRecord(b)
  {
    if blobs != [] {
      ChunkDataSnoc(blobs[1..], b);
      assert (blobs + [b])[1..] == blobs[1..] + [b];
    }
  }
}
