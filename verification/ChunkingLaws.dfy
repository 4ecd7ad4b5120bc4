// What content-defined chunking guarantees: a lossless split, bounded pieces, and local edits that
// stay local.
module ChunkingLaws {
  import opened Basics
  import opened Chunking

  function Concat(chunks: seq<Chunk>): Bytes {
    if chunks == [] then [] else chunks[0].data + Concat(chunks[1..])
  }

  // What a chunking of s found at offset has to be.
  ghost predicate IsChunking(c: Config, h: HashFn, s: Bytes, offset: nat, chunks: seq<Chunk>) {
    && Concat(chunks) == s
    && (forall i | 0 <= i < |chunks| :: WellMade(h, offset, chunks, i))
    && (forall i | 0 <= i < |chunks| :: CutsNowhereInside(c, chunks[i].data))
    && (forall i | 0 <= i < |chunks| - 1 :: Cuts(c, chunks[i].data))
  }

  // Non-empty, hashed, and contiguous with the pieces before it.
  ghost predicate WellMade(h: HashFn, offset: nat, chunks: seq<Chunk>, i: nat)
    requires i < |chunks|
  {
    && chunks[i].data != []
    && chunks[i].hash == h(chunks[i].data)
    && chunks[i].offset == if i == 0 then offset else chunks[i - 1].offset + |chunks[i - 1].data|
  }

  ghost predicate CutsNowhereInside(c: Config, w: Bytes) {
    forall k | 0 < k < |w| :: !Cuts(c, w[..k])
  }

  // A first piece that ends where the rule first fires, and a chunking of the rest.
  lemma ConsIsChunking(c: Config, h: HashFn, s: Bytes, offset: nat, len: nat, rest: seq<Chunk>)
    requires 0 < len <= |s| && CutsNowhereInside(c, s[..len]) && (len < |s| ==> Cuts(c, s[..len]))
    requires IsChunking(c, h, s[len..], offset + len, rest)
    ensures IsChunking(c, h, s, offset, [Chunk(offset, s[..len], h(s[..len]))] + rest)
  {
    var first := Chunk(offset, s[..len], h(s[..len]));
    var all := [first] + rest;
    assert all[1..] == rest && s == s[..len] + s[len..];
    forall i | 0 <= i < |all|
      ensures WellMade(h, offset, all, i) && CutsNowhereInside(c, all[i].data)
    {
      if i > 0 { assert WellMade(h, offset + len, rest, i - 1) && CutsNowhereInside(c, rest[i - 1].data); }
    }
    forall i | 0 <= i < |all| - 1
      ensures Cuts(c, all[i].data)
    {
      if i == 0 { assert WellMade(h, offset + len, rest, 0); } else { assert Cuts(c, rest[i - 1].data); }
    }
  }

  lemma FirstPiece(c: Config, s: Bytes)
    requires s != []
    ensures var len := CutLength(c, s, 1); CutsNowhereInside(c, s[..len]) && (len < |s| ==> Cuts(c, s[..len]))
  {
    var len := CutLength(c, s, 1);
    CutLengthMeaning(c, s, 1);
    assert forall k | 0 <= k <= len :: s[..len][..k] == s[..k];
  }

  // Any input, any sizes: the pieces are non-empty and contiguous, their concatenation is the input,
  // and each piece but the last ends at the first position where the rule fires.
  lemma {:induction false} ChunksOfIsChunking(c: Config, h: HashFn, s: Bytes, offset: nat)
    ensures IsChunking(c, h, s, offset, ChunksOf(c, h, s, offset))
  {
    if s != [] {
      var len := CutLength(c, s, 1);
      FirstPiece(c, s);
      ChunksOfIsChunking(c, h, s[len..], offset + len);
      ConsIsChunking(c, h, s, offset, len, ChunksOf(c, h, s[len..], offset + len));
    }
  }

  // The first piece of any chunking ends where the rule first fires.
  lemma FirstCut(c: Config, s: Bytes, d: Bytes, more: Bytes)
    requires s == d + more && d != [] && CutsNowhereInside(c, d) && (more != [] ==> Cuts(c, d))
    ensures CutLength(c, s, 1) == |d|
  {
    var len := CutLength(c, s, 1);
    assert s[..|d|] == d;
    CutLengthMeaning(c, s, 1);
    assert forall m | 0 <= m <= |d| :: s[..m] == d[..m];
  }

  lemma TailIsChunking(c: Config, h: HashFn, s: Bytes, offset: nat, chunks: seq<Chunk>)
    requires IsChunking(c, h, s, offset, chunks) && chunks != []
    ensures IsChunking(c, h, Concat(chunks[1..]), offset + |chunks[0].data|, chunks[1..])
  {
    var rest := chunks[1..];
    assert WellMade(h, offset, chunks, 0);
    forall i | 0 <= i < |rest|
      ensures WellMade(h, offset + |chunks[0].data|, rest, i) && CutsNowhereInside(c, rest[i].data)
    {
      assert WellMade(h, offset, chunks, i + 1) && CutsNowhereInside(c, chunks[i + 1].data);
    }
    forall i | 0 <= i < |rest| - 1
      ensures Cuts(c, rest[i].data)
    {
      assert Cuts(c, chunks[i + 1].data);
    }
  }

  // The cut rule determines the pieces: they agree one by one.
  lemma {:induction false} ChunkingsAgree(c: Config, h: HashFn, s: Bytes, offset: nat, a: seq<Chunk>, b: seq<Chunk>)
    requires IsChunking(c, h, s, offset, a) && IsChunking(c, h, s, offset, b)
    ensures a == b
    decreases |a|
  {
    if a != [] && b != [] {
      FirstOf(c, h, s, offset, a);
      FirstOf(c, h, s, offset, b);
      TailIsChunking(c, h, s, offset, a);
      TailIsChunking(c, h, s, offset, b);
      ChunkingsAgree(c, h, Concat(a[1..]), offset + |a[0].data|, a[1..], b[1..]);
      HeadAndTail(a, b);
    } else {
      NoPieces(c, h, s, offset, a);
      NoPieces(c, h, s, offset, b);
    }
  }

  lemma HeadAndTail<T>(a: seq<T>, b: seq<T>)
    requires a != [] && b != [] && a[0] == b[0] && a[1..] == b[1..]
    ensures a == b
  {
    assert a == [a[0]] + a[1..];
  }

  lemma NoPieces(c: Config, h: HashFn, s: Bytes, offset: nat, chunks: seq<Chunk>)
    requires IsChunking(c, h, s, offset, chunks)
    ensures chunks == [] <==> s == []
  {
    if chunks != [] { FirstOf(c, h, s, offset, chunks); }
  }

  // ... and nothing else is a chunking.
  lemma ChunkingIsUnique(c: Config, h: HashFn, s: Bytes, offset: nat, chunks: seq<Chunk>)
    requires IsChunking(c, h, s, offset, chunks)
    ensures chunks == ChunksOf(c, h, s, offset)
  {
    ChunksOfIsChunking(c, h, s, offset);
    ChunkingsAgree(c, h, s, offset, chunks, ChunksOf(c, h, s, offset));
  }

  // Every chunk but the last is a boundary by its own bytes, and no chunk has one inside.
  lemma ChunkEnds(c: Config, h: HashFn, s: Bytes, offset: nat, i: nat)
    requires i < |ChunksOf(c, h, s, offset)|
    ensures var chunks := ChunksOf(c, h, s, offset);
        && (i + 1 < |chunks| ==> Boundary(c, chunks[i].data))
        && forall k | 0 < k < |chunks[i].data| :: !Boundary(c, chunks[i].data[..k])
  {
    var chunks := ChunksOf(c, h, s, offset);
    var w := chunks[i].data;
    ChunksOfIsChunking(c, h, s, offset);
    CutsExactly(c, w);
    assert CutsNowhereInside(c, w);
    forall k | 0 < k < |w|
      ensures !Boundary(c, w[..k])
    {
      CutsExactly(c, w[..k]);
    }
  }

  // No piece exceeds max_size (a max_size of 0 acts as 1).
  lemma ChunksAreBounded(c: Config, h: HashFn, s: Bytes, offset: nat, i: nat)
    requires i < |ChunksOf(c, h, s, offset)|
    ensures 1 <= |ChunksOf(c, h, s, offset)[i].data| <= if c.maxSize == 0 then 1 else c.maxSize
  {
    ChunksOfIsChunking(c, h, s, offset);
    var w := ChunksOf(c, h, s, offset)[i].data;
    assert WellMade(h, offset, ChunksOf(c, h, s, offset), i) && CutsNowhereInside(c, w);
    var m := if c.maxSize == 0 then 1 else c.maxSize;
    if |w| > m { assert Cuts(c, w[..m]); }
  }

  // ---------- Locality of edits ----------

  function End(x: Chunk): nat {
    x.offset + |x.data|
  }

  lemma PrefixParts(p: Bytes, x: Bytes, len: nat)
    requires len <= |p|
    ensures (p + x)[..len] == p[..len] && (p + x)[len..] == p[len..] + x
  {
  }

  lemma {:induction false} PieceEnds(c: Config, h: HashFn, s: Bytes, offset: nat, chunks: seq<Chunk>, k: nat)
    requires IsChunking(c, h, s, offset, chunks) && k < |chunks|
    ensures offset + |chunks[0].data| <= End(chunks[k]) <= offset + |s|
    ensures k > 0 ==> chunks[k].offset >= offset + |chunks[0].data|
    decreases k
  {
    assert WellMade(h, offset, chunks, 0);
    if k > 0 {
      TailIsChunking(c, h, s, offset, chunks);
      PieceEnds(c, h, Concat(chunks[1..]), offset + |chunks[0].data|, chunks[1..], k - 1);
      if k == 1 { assert WellMade(h, offset, chunks, 1); }
    }
  }

  // A first piece that ends inside p, not at the end of the input, does not depend on what follows p.
  lemma FirstPieceUnchanged(c: Config, p: Bytes, x: Bytes, y: Bytes, len: nat)
    requires 0 < len <= |p| && len < |p + x| && CutLength(c, p + x, 1) == len
    ensures CutLength(c, p + y, 1) == len
  {
    CutLengthMeaning(c, p + x, 1);
    CutLengthMeaning(c, p + y, 1);
    assert forall m | 0 <= m <= len :: (p + x)[..m] == p[..m] == (p + y)[..m];
  }

  lemma FirstOf(c: Config, h: HashFn, s: Bytes, offset: nat, chunks: seq<Chunk>)
    requires IsChunking(c, h, s, offset, chunks) && chunks != []
    ensures var len := |chunks[0].data|;
        && 0 < len <= |s| && len == CutLength(c, s, 1)
        && chunks[0] == Chunk(offset, s[..len], h(s[..len])) && Concat(chunks[1..]) == s[len..]
        && (|chunks| > 1 ==> len < |s|)
  {
    assert WellMade(h, offset, chunks, 0) && CutsNowhereInside(c, chunks[0].data);
    if |chunks| > 1 { assert WellMade(h, offset, chunks, 1); }
    assert Concat(chunks[1..]) != [] ==> chunks[1..] != [];
    FirstCut(c, s, chunks[0].data, Concat(chunks[1..]));
  }

  lemma FirstPiecesAgree(c: Config, h: HashFn, p: Bytes, x: Bytes, y: Bytes, offset: nat, a: seq<Chunk>, b: seq<Chunk>)
    requires IsChunking(c, h, p + x, offset, a) && IsChunking(c, h, p + y, offset, b)
    requires |a| > 1 && |a[0].data| <= |p|
    ensures b != [] && b[0] == a[0]
    ensures Concat(a[1..]) == p[|a[0].data|..] + x && Concat(b[1..]) == p[|a[0].data|..] + y
  {
    var len := |a[0].data|;
    FirstOf(c, h, p + x, offset, a);
    assert Concat(b) != [];
    FirstOf(c, h, p + y, offset, b);
    FirstPieceUnchanged(c, p, x, y, len);
    PrefixParts(p, x, len);
    PrefixParts(p, y, len);
  }

  lemma {:induction false} PrefixPiecesUnchanged(c: Config, h: HashFn, p: Bytes, x: Bytes, y: Bytes, offset: nat, k: nat,
                                                 a: seq<Chunk>, b: seq<Chunk>)
    requires IsChunking(c, h, p + x, offset, a) && IsChunking(c, h, p + y, offset, b)
    requires k + 1 < |a| && End(a[k]) <= offset + |p|
    ensures k < |b| && b[k] == a[k]
    decreases k
  {
    var len := |a[0].data|;
    PieceEnds(c, h, p + x, offset, a, k);
    FirstPiecesAgree(c, h, p, x, y, offset, a, b);
    if k > 0 {
      TailIsChunking(c, h, p + x, offset, a);
      TailIsChunking(c, h, p + y, offset, b);
      PrefixPiecesUnchanged(c, h, p[len..], x, y, offset + len, k - 1, a[1..], b[1..]);
    }
  }

  // Before the edit: every non-final chunk that ends inside the common prefix is the same in both inputs.
  lemma PrefixChunksUnchanged(c: Config, h: HashFn, p: Bytes, x: Bytes, y: Bytes, offset: nat, k: nat)
    requires k + 1 < |ChunksOf(c, h, p + x, offset)|
    requires End(ChunksOf(c, h, p + x, offset)[k]) <= offset + |p|
    ensures k < |ChunksOf(c, h, p + y, offset)|
    ensures ChunksOf(c, h, p + y, offset)[k] == ChunksOf(c, h, p + x, offset)[k]
  {
    ChunksOfIsChunking(c, h, p + x, offset);
    ChunksOfIsChunking(c, h, p + y, offset);
    PrefixPiecesUnchanged(c, h, p, x, y, offset, k, ChunksOf(c, h, p + x, offset), ChunksOf(c, h, p + y, offset));
  }

  lemma DropTwice<T>(s: seq<T>, m: nat, n: nat)
    requires m <= n <= |s|
    ensures s[m..][n - m..] == s[n..]
  {
  }

  lemma {:induction false} TailsAreChunkings(c: Config, h: HashFn, s: Bytes, offset: nat, chunks: seq<Chunk>, k: nat)
    requires IsChunking(c, h, s, offset, chunks) && k < |chunks|
    ensures offset <= chunks[k].offset <= offset + |s|
    ensures IsChunking(c, h, s[chunks[k].offset - offset..], chunks[k].offset, chunks[k..])
    decreases k
  {
    if k == 0 {
      assert WellMade(h, offset, chunks, 0) && s[0..] == s && chunks[0..] == chunks;
    } else {
      var len, at := |chunks[0].data|, chunks[k].offset;
      FirstOf(c, h, s, offset, chunks);
      TailIsChunking(c, h, s, offset, chunks);
      TailsAreChunkings(c, h, s[len..], offset + len, chunks[1..], k - 1);
      DropTwice(s, len, at - offset);
      DropTwice(chunks, 1, k);
    }
  }

  // From any boundary on, the chunks are the chunks of what is left.
  lemma ChunksFrom(c: Config, h: HashFn, s: Bytes, offset: nat, chunks: seq<Chunk>, k: nat)
    requires chunks == ChunksOf(c, h, s, offset) && k < |chunks|
    ensures offset <= chunks[k].offset <= offset + |s|
    ensures chunks[k..] == ChunksOf(c, h, s[chunks[k].offset - offset..], chunks[k].offset)
  {
    var at := chunks[k].offset;
    ChunksOfIsChunking(c, h, s, offset);
    TailsAreChunkings(c, h, s, offset, chunks, k);
    ChunkingIsUnique(c, h, s[at - offset..], at, chunks[k..]);
  }

  ghost predicate Shifted(a: seq<Chunk>, b: seq<Chunk>, from: nat, to: nat) {
    && |a| == |b|
    && forall m | 0 <= m < |a| :: a[m].data == b[m].data && a[m].hash == b[m].hash && a[m].offset - from == b[m].offset - to
  }

  lemma {:induction false} SameBytesShifted(c: Config, h: HashFn, s: Bytes, from: nat, to: nat)
    ensures Shifted(ChunksOf(c, h, s, from), ChunksOf(c, h, s, to), from, to)
  {
    if s != [] {
      var len := CutLength(c, s, 1);
      SameBytesShifted(c, h, s[len..], from + len, to + len);
    }
  }

  lemma ShiftedFrom(a: seq<Chunk>, b: seq<Chunk>, from: nat, to: nat, x: nat, y: nat)
    requires Shifted(a, b, from, to) && from - x == to - y
    ensures Shifted(a, b, x, y)
  {
  }

  lemma DropAcross(x: Bytes, s: Bytes, at: nat)
    requires |x| <= at <= |x| + |s|
    ensures (x + s)[at..] == s[at - |x|..]
  {
  }

  lemma SuffixChunks(c: Config, h: HashFn, x: Bytes, s: Bytes, i: nat, a: seq<Chunk>, at: nat)
    requires a == ChunksOf(c, h, x + s, 0) && i < |a| && at == a[i].offset && at >= |x|
    ensures at <= |x| + |s| && a[i..] == ChunksOf(c, h, s[at - |x|..], at)
  {
    ChunksFrom(c, h, x + s, 0, a, i);
    DropAcross(x, s, at);
  }

  // After the edit: once both chunkings a and b have a boundary at the same point of the common suffix,
  // all later chunks are identical, with offsets shifted by the difference in length.
  lemma SuffixChunksRealign(c: Config, h: HashFn, x: Bytes, y: Bytes, s: Bytes, i: nat, j: nat, a: seq<Chunk>, b: seq<Chunk>)
    requires a == ChunksOf(c, h, x + s, 0) && b == ChunksOf(c, h, y + s, 0)
    requires i < |a| && j < |b| && a[i].offset - |x| == b[j].offset - |y| >= 0
    ensures Shifted(a[i..], b[j..], |x|, |y|)
  {
    var at, to := a[i].offset, b[j].offset;
    SuffixChunks(c, h, x, s, i, a, at);
    SuffixChunks(c, h, y, s, j, b, to);
    SameBytesShifted(c, h, s[at - |x|..], at, to);
    ShiftedFrom(a[i..], b[j..], at, to, |x|, |y|);
  }

  // Why boundaries meet again: past min_size the content rule looks at the last maskBits bytes only, so
  // it fires at the same place wherever the open chunk began.
  lemma ContentRuleIgnoresStart(c: Config, u: Bytes, v: Bytes, w: Bytes)
    requires c.maskBits <= 64 && c.maskBits <= |w|
    requires |u + w| >= c.minSize && |v + w| >= c.minSize
    ensures ContentRule(c, u + w) <==> ContentRule(c, v + w)
    ensures ContentRule(c, u + w) <==> WeightedSum(c.gear, w) % Pow2(c.maskBits) == 0
  {
    RuleFromLastBytes(c, u, w);
    RuleFromLastBytes(c, v, w);
  }

  lemma RuleFromLastBytes(c: Config, u: Bytes, w: Bytes)
    requires c.maskBits <= 64 && c.maskBits <= |w| && |u + w| >= c.minSize
    ensures ContentRule(c, u + w) <==> WeightedSum(c.gear, w) % Pow2(c.maskBits) == 0
  {
    LowBitsAreLocal(c.gear, u, w, c.maskBits);
    LowBitsAreRemainder(RollAll(c.gear, u + w), c.maskBits);
    RollingHashIsWeightedSum(c.gear, w);
    LowBitsOfWrapped(WeightedSum(c.gear, w), c.maskBits);
  }
}
