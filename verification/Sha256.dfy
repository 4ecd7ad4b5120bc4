// sha256.cpp, Sha256Ctx: block buffering and padding around a compression function that stays abstract.
module Sha256 {
  import opened Basics

  type u32 = x: int | 0 <= x < TWO32

  type State = h: seq<u32> | |h| == 8 witness seq(8, i => 0)

  // process_block: the chaining value and one 64-byte block give the next chaining value.
  type Compress = (State, Bytes) -> State

  const IV: State := [0x6a09e667, 0xbb67ae85, 0x3c6ef372, 0xa54ff53a, 0x510e527f, 0x9b05688c, 0x1f83d9ab, 0x5be0cd19]

  // Compressing a whole number of blocks, the last one last.
  function Absorb(c: Compress, m: Bytes): State
    requires |m| % 64 == 0
  {
    if m == [] then IV else c(Absorb(c, m[..|m| - 64]), m[|m| - 64..])
  }

  function FullLength(m: Bytes): nat {
    |m| - |m| % 64
  }

  function BitLength(m: Bytes): u64 {
    8 * |m| % TWO64
  }

  // ---------- Padding ----------

  // Zeros that finish() adds after the 0x80 byte: up to 56 modulo 64.
  function ZeroCount(len: nat): (z: nat)
    ensures z < 64 && (len + 1 + z) % 64 == 56
  {
    var r := len % 64;
    if r <= 55 then 55 - r else 119 - r
  }

  function Zeros(n: nat): (z: Bytes)
    ensures |z| == n
  {
    seq(n, i => 0)
  }

  function Marked(m: Bytes): Bytes {
    m + [0x80] + Zeros(ZeroCount(|m|))
  }

  // The last k base-256 digits of n, least significant byte written first and last in place.
  function BigEndian(n: nat, k: nat): (b: Bytes)
    ensures |b| == k
  {
    if k == 0 then [] else BigEndian(n / 256, k - 1) + [n % 256]
  }

  function BigEndian64(n: u64): (b: Bytes)
    ensures |b| == 8
  {
    BigEndian(n, 8)
  }

  function Pow256(k: nat): (p: nat)
    ensures p >= 1
  {
    if k == 0 then 1 else 256 * Pow256(k - 1)
  }

  // With the length field, which counts the padding that precedes it.
  function Closed(marked: Bytes): (p: Bytes)
    ensures |p| == |marked| + 8 && (|marked| % 64 == 56 ==> |p| % 64 == 0)
  {
    EightMore(|marked|);
    marked + BigEndian64(BitLength(marked))
  }

  lemma EightMore(n: nat)
    ensures n % 64 == 56 ==> (n + 8) % 64 == 0
  {
    assert n == 64 * (n / 64) + n % 64;
  }

  // Everything that hashing m compresses.
  function Padded(m: Bytes): (p: Bytes)
    ensures |p| % 64 == 0
  {
    PaddingFillsBlocks(m);
    Closed(Marked(m))
  }

  lemma PaddingFillsBlocks(m: Bytes)
    ensures |Marked(m)| % 64 == 56 && |Closed(Marked(m))| % 64 == 0
  {
    assert |Marked(m)| == |m| + 1 + ZeroCount(|m|);
    EightMore(|Marked(m)|);
  }

  // The words of h from the i-th on, each most significant byte first.
  function WordsFrom(h: State, i: nat): (b: Bytes)
    requires i <= 8
    ensures |b| == 4 * (8 - i)
    decreases 8 - i
  {
    if i == 8 then [] else BigEndian(h[i], 4) + WordsFrom(h, i + 1)
  }

  function Output(h: State): Digest {
    WordsFrom(h, 0)
  }

  function Hash(c: Compress, m: Bytes): Digest {
    Output(Absorb(c, Padded(m)))
  }

  // ---------- The context ----------

  class Sha256Ctx {
    const compress: Compress
    var h: State
    var bitLen: u64
    const buffer: array<byte>
    var bufLen: nat

    // The context has taken in m: every field is determined by the bytes alone, not by how they came.
    ghost predicate Holds(m: Bytes)
      reads this, buffer
    {
      Buffers(m) && bitLen == BitLength(m)
    }

    // All complete blocks are compressed, and the buffer keeps the rest.
    ghost predicate Buffers(m: Bytes)
      reads this, buffer
    {
      && buffer.Length == 64
      && h == Absorb(compress, m[..FullLength(m)])
      && bufLen == |m| % 64 < 64
      && buffer[..bufLen] == m[FullLength(m)..]
    }

    constructor (compress: Compress)
      ensures this.compress == compress && fresh(buffer) && Holds([])
    {
      this.compress := compress;
      h := IV;
      bitLen := 0;
      buffer := new byte[64](i => 0);
      bufLen := 0;
    }

    // One round of the copying loop: the piece fits the buffer, and a full buffer is compressed.
    method Take(piece: Bytes, ghost m: Bytes)
      requires Buffers(m) && piece != [] && bufLen + |piece| <= 64
      modifies this`h, this`bufLen, buffer
      ensures Buffers(m + piece)
    {
      BufferGrows(m, piece);
      ghost var kept := buffer[..bufLen];
      forall k | 0 <= k < |piece| {
        buffer[bufLen + k] := piece[k];
      }
      bufLen := bufLen + |piece|;
      assert buffer[..bufLen] == kept + piece;
      if bufLen == 64 {
        assert buffer[..] == buffer[..bufLen];
        h := compress(h, buffer[..]);
        bufLen := 0;
      }
    }

    method Update(data: Bytes, ghost m: Bytes)
      requires Holds(m)
      modifies this, buffer
      ensures Holds(m + data)
    {
      bitLen := (bitLen + |data| * 8) % TWO64;
      BitLengthAdds(m, data);
      var pos := 0;
      ghost var taken := m;
      NothingTaken(m, data);
      while pos < |data|
        invariant 0 <= pos <= |data|
        invariant Buffers(taken) && Taken(m, data, pos, taken)
        invariant bitLen == BitLength(m + data)
      {
        var take := if |data| - pos < 64 - bufLen then |data| - pos else 64 - bufLen;
        var piece := data[pos..pos + take];
        Take(piece, taken);
        PieceTaken(m, data, pos, pos + take, taken);
        pos, taken := pos + take, taken + piece;
      }
      AllTaken(m, data, taken);
    }

    // The first half of finish(): the marker byte, then zeros until the length field fits.
    method Pad(ghost m: Bytes)
      requires Holds(m)
      modifies this, buffer
      ensures Holds(Marked(m))
    {
      Update([0x80], m);
      ghost var z := 0;
      NoZeros(m + [0x80]);
      while bufLen != 56
        invariant Holds(m + [0x80] + Zeros(z)) && z <= ZeroCount(|m|)
        decreases ZeroCount(|m|) - z
      {
        ZerosReach56(m, z);
        Update([0], m + [0x80] + Zeros(z));
        ZeroAppended(m + [0x80], z);
        z := z + 1;
      }
      ZerosReach56(m, z);
    }

    // The second half: the length field completes the block in place.
    method Close(ghost marked: Bytes)
      requires Holds(marked) && |marked| % 64 == 56
      modifies this, buffer
      ensures h == Absorb(compress, Closed(marked))
    {
      ghost var kept := buffer[..56];
      var lenBytes := BigEndian64(bitLen);
      forall k | 0 <= k < 8 {
        buffer[56 + k] := lenBytes[k];
      }
      assert buffer[..] == kept + lenBytes;
      LastBlock(marked);
      h := compress(h, buffer[..]);
    }

    method Finish(ghost m: Bytes) returns (digest: Digest)
      requires Holds(m)
      modifies this, buffer
      ensures digest == Hash(compress, m)
    {
      Pad(m);
      Close(Marked(m));
      digest := Output(h);
    }
  }

  // The closed message is the complete blocks of the marked one and a last block that ends in the length.
  lemma LastBlock(marked: Bytes)
    requires |marked| % 64 == 56
    ensures var p := Closed(marked);
        && |p| == FullLength(marked) + 64
        && p[..|p| - 64] == marked[..FullLength(marked)]
        && p[|p| - 64..] == marked[FullLength(marked)..] + BigEndian64(BitLength(marked))
  {
  }

  ghost predicate Taken(m: Bytes, data: Bytes, pos: nat, t: Bytes) {
    pos <= |data| && t == m + data[..pos]
  }

  lemma NothingTaken(m: Bytes, data: Bytes)
    ensures Taken(m, data, 0, m)
  {
  }

  lemma PieceTaken(m: Bytes, data: Bytes, pos: nat, end: nat, t: Bytes)
    requires pos <= end <= |data| && Taken(m, data, pos, t)
    ensures Taken(m, data, end, t + data[pos..end])
  {
  }

  lemma AllTaken(m: Bytes, data: Bytes, t: Bytes)
    requires Taken(m, data, |data|, t)
    ensures t == m + data
  {
  }

  lemma BitLengthAdds(m: Bytes, data: Bytes)
    ensures (BitLength(m) + |data| * 8) % TWO64 == BitLength(m + data)
  {
    RemainderAdds(8 * |m|, |data| * 8);
    assert 8 * |m + data| == 8 * |m| + |data| * 8;
  }

  // Taking in at most as much as fits the buffer.
  lemma BufferGrows(m: Bytes, d: Bytes)
    requires d != [] && |m| % 64 + |d| <= 64
    ensures |m| % 64 + |d| == 64 ==> var n := m + d;
        && |n| % 64 == 0 && FullLength(n) == |n| == FullLength(m) + 64 && n[..|n|] == n
        && n[..|n| - 64] == m[..FullLength(m)] && n[|n| - 64..] == m[FullLength(m)..] + d
    ensures |m| % 64 + |d| < 64 ==> var n := m + d;
        && |n| % 64 == |m| % 64 + |d| && FullLength(n) == FullLength(m)
        && n[..FullLength(n)] == m[..FullLength(m)] && n[FullLength(n)..] == m[FullLength(m)..] + d
  {
  }

  lemma NoZeros(m: Bytes)
    ensures m + Zeros(0) == m
  {
  }

  lemma ZeroAppended(m: Bytes, z: nat)
    ensures m + Zeros(z) + [0] == m + Zeros(z + 1)
  {
  }

  lemma ZerosReach56(m: Bytes, z: nat)
    requires z <= ZeroCount(|m|)
    ensures |m + [0x80] + Zeros(z)| % 64 == 56 <==> z == ZeroCount(|m|)
  {
    RemainderReaches56(|m|, z);
    assert |m + [0x80] + Zeros(z)| == |m| + 1 + z;
  }

  lemma RemainderReaches56(len: nat, z: nat)
    requires z <= ZeroCount(len)
    ensures (len + 1 + z) % 64 == 56 <==> z == ZeroCount(len)
  {
    assert len == 64 * (len / 64) + len % 64;
  }

  // ---------- Split invariance ----------

  function Flatten(pieces: seq<Bytes>): Bytes {
    if pieces == [] then [] else Flatten(pieces[..|pieces| - 1]) + pieces[|pieces| - 1]
  }

  ghost predicate FedSoFar(pieces: seq<Bytes>, i: nat, m: Bytes) {
    i <= |pieces| && m == Flatten(pieces[..i])
  }

  lemma FeedOneMore(pieces: seq<Bytes>, i: nat, m: Bytes)
    requires i < |pieces| && FedSoFar(pieces, i, m)
    ensures FedSoFar(pieces, i + 1, m + pieces[i])
  {
    assert pieces[..i + 1][..i] == pieces[..i];
  }

  lemma AllFed(pieces: seq<Bytes>, m: Bytes)
    requires FedSoFar(pieces, |pieces|, m)
    ensures m == Flatten(pieces)
  {
    assert pieces[..|pieces|] == pieces;
  }

  // A message fed in any pieces hashes like the message fed at once.
  method HashInPieces(compress: Compress, pieces: seq<Bytes>) returns (digest: Digest)
    ensures digest == Hash(compress, Flatten(pieces))
  {
    var ctx := new Sha256Ctx(compress);
    var i := 0;
    ghost var m: Bytes := [];
    while i < |pieces|
      invariant 0 <= i <= |pieces| && fresh(ctx) && fresh(ctx.buffer) && ctx.compress == compress
      invariant ctx.Holds(m) && FedSoFar(pieces, i, m)
    {
      FeedOneMore(pieces, i, m);
      ctx.Update(pieces[i], m);
      m := m + pieces[i];
      i := i + 1;
    }
    AllFed(pieces, m);
    digest := ctx.Finish(m);
  }

  // ---------- What the padding guarantees ----------

  lemma MarkedInjective(m: Bytes, n: Bytes)
    requires Marked(m) == Marked(n)
    ensures m == n
  {
    var p := Marked(m);
    assert p[|m|] == 0x80 && p[|n|] == 0x80;
    assert forall i | |m| < i < |p| :: p[i] == 0;
    assert forall i | |n| < i < |p| :: p[i] == 0;
    assert m == p[..|m|] && n == p[..|n|];
  }

  // The blocks that are compressed determine the message.
  lemma PaddedInjective(m: Bytes, n: Bytes)
    requires Padded(m) == Padded(n)
    ensures m == n
  {
    assert Padded(m)[..|Padded(m)| - 8] == Marked(m) && Padded(n)[..|Padded(n)| - 8] == Marked(n);
    MarkedInjective(m, n);
  }

  // The padding of section 5.1.1 of FIPS 180-4 carries the length of the message itself.
  function FipsPadded(m: Bytes): Bytes {
    Marked(m) + BigEndian64(BitLength(m))
  }

  lemma {:induction false} BigEndianInjective(x: nat, y: nat, k: nat)
    requires x < Pow256(k) && y < Pow256(k) && BigEndian(x, k) == BigEndian(y, k)
    ensures x == y
  {
    if k > 0 {
      var a, b := BigEndian(x, k), BigEndian(y, k);
      assert a[..k - 1] == BigEndian(x / 256, k - 1) && b[..k - 1] == BigEndian(y / 256, k - 1);
      assert a[k - 1] == x % 256 && b[k - 1] == y % 256;
      BigEndianInjective(x / 256, y / 256, k - 1);
    }
  }

  lemma DivideTwice(n: nat, p: nat)
    requires p >= 1
    ensures n / 256 / p == n / (256 * p)
  {
    var q, r := n / 256 / p, n / 256 % p;
    var d := 256 * p;
    assert n / 256 == p * q + r;
    assert n == 256 * (p * q + r) + n % 256;
    assert 256 * (p * q) == d * q;
    DivModUnique(d, q, 256 * r + n % 256, n / d, n % d);
  }

  // The byte of n that weighs 256^k.
  function ByteOf(n: nat, k: nat): byte {
    n / Pow256(k) % 256
  }

  // The i-th of k bytes weighs 256^(k - 1 - i): the first is the most significant.
  lemma {:induction false} BigEndianDigits(n: nat, k: nat, i: nat)
    requires i < k
    ensures BigEndian(n, k)[i] == ByteOf(n, k - 1 - i)
  {
    if i == k - 1 {
      assert Pow256(0) == 1;
    } else {
      BigEndianDigits(n / 256, k - 1, i);
      DivideTwice(n, Pow256(k - 2 - i));
    }
  }

  lemma {:induction false} WordAt(s: State, from: nat, i: nat, j: nat)
    requires from <= i < 8 && j < 4
    ensures WordsFrom(s, from)[4 * (i - from) + j] == BigEndian(s[i], 4)[j]
    decreases i - from
  {
    if from < i { WordAt(s, from + 1, i, j); }
  }

  // The digest is the eight words in order, each most significant byte first.
  lemma OutputMeaning(s: State, i: nat, j: nat)
    requires i < 8 && j < 4
    ensures Output(s)[4 * i + j] == ByteOf(s[i], 3 - j)
  {
    WordAt(s, 0, i, j);
    BigEndianDigits(s[i], 4, j);
  }

  // Most significant byte first, f is the number n.
  ghost predicate IsLength(f: Bytes, n: nat) {
    |f| == 8 && forall i | 0 <= i < 8 :: f[i] == ByteOf(n, 7 - i)
  }

  lemma LengthBytes(n: u64)
    ensures IsLength(BigEndian64(n), n)
  {
    forall i | 0 <= i < 8
      ensures BigEndian64(n)[i] == ByteOf(n, 7 - i)
    {
      BigEndianDigits(n, 8, i);
    }
  }

  lemma MarkedMeaning(m: Bytes)
    ensures var q := Marked(m);
        && |q| % 64 == 56 && |m| + 1 <= |q| < |m| + 1 + 64
        && q[..|m|] == m && q[|m|] == 0x80 && forall k | |m| < k < |q| :: q[k] == 0
  {
    PaddingFillsBlocks(m);
  }

  // What is hashed: the message, 0x80, zeros, and in the last eight bytes, most significant first, eight
  // times the number of bytes before them. It fills blocks, and no block is added that is not needed.
  lemma PaddedMeaning(m: Bytes)
    ensures var p := Padded(m);
        && |p| % 64 == 0 && |m| + 9 <= |p| < |m| + 9 + 64
        && p[..|m|] == m && p[|m|] == 0x80 && (forall k | |m| < k < |p| - 8 :: p[k] == 0)
        && IsLength(p[|p| - 8..], 8 * (|p| - 8) % TWO64)
  {
    var q := Marked(m);
    MarkedMeaning(m);
    LengthBytes(BitLength(q));
    var p := Padded(m);
    assert p[..|q|] == q && p[|q|..] == BigEndian64(BitLength(q));
    assert p[..|m|] == q[..|m|];
  }

  // i is the integer part of the square root of p, and w the first 32 bits of its fraction.
  ghost predicate RootFraction(p: nat, i: nat, w: nat) {
    var r := i * TWO32 + w;
    r * r <= p * TWO64 < (r + 1) * (r + 1)
  }

  // The initial state comes from the square roots of the first eight primes.
  lemma InitialState()
    ensures RootFraction(2, 1, IV[0]) && RootFraction(3, 1, IV[1]) && RootFraction(5, 2, IV[2]) && RootFraction(7, 2, IV[3])
    ensures RootFraction(11, 3, IV[4]) && RootFraction(13, 3, IV[5]) && RootFraction(17, 4, IV[6]) && RootFraction(19, 4, IV[7])
  {
  }

  lemma Pow256Of8()
    ensures Pow256(8) == TWO64
  {
    assert Pow256(4) == 0x1_0000_0000;
    assert Pow256(6) == 0x1_0000_0000_0000;
  }

  // For no message at all is it the padding that this code applies, because the marker and the zeros
  // are counted: this hash is never the SHA-256 of the standard's padded message.
  lemma NeverFipsPadding(m: Bytes)
    ensures Padded(m) != FipsPadded(m)
  {
    if Padded(m) == FipsPadded(m) {
      var n := |Marked(m)|;
      assert Padded(m)[n..] == BigEndian64(BitLength(Marked(m))) && FipsPadded(m)[n..] == BigEndian64(BitLength(m));
      Pow256Of8();
      BigEndianInjective(BitLength(Marked(m)), BitLength(m), 8);
    }
  }

  // ---------- Collisions come from the compression function ----------

  // The i-th block of p and the j-th of q enter the compression function as different pairs of chaining
  // value and block, and leave it as the same chaining value.
  ghost predicate CollideAt(c: Compress, p: Bytes, q: Bytes, i: nat, j: nat) {
    && 64 * i + 64 <= |p| && 64 * j + 64 <= |q|
    && (Chained(c, p, i) != Chained(c, q, j) || Block(p, i) != Block(q, j))
    && c(Chained(c, p, i), Block(p, i)) == c(Chained(c, q, j), Block(q, j))
  }

  function Block(p: Bytes, i: nat): Bytes
    requires 64 * i + 64 <= |p|
  {
    p[64 * i..64 * i + 64]
  }

  function Chained(c: Compress, p: Bytes, i: nat): State
    requires 64 * i <= |p|
  {
    Absorb(c, p[..64 * i])
  }

  lemma {:induction false} WordsInjective(s: State, t: State, i: nat)
    requires i <= 8 && WordsFrom(s, i) == WordsFrom(t, i)
    ensures s[i..] == t[i..]
    decreases 8 - i
  {
    if i < 8 {
      assert WordsFrom(s, i)[..4] == BigEndian(s[i], 4) && WordsFrom(t, i)[..4] == BigEndian(t[i], 4);
      assert WordsFrom(s, i)[4..] == WordsFrom(s, i + 1) && WordsFrom(t, i)[4..] == WordsFrom(t, i + 1);
      assert Pow256(2) == 0x1_0000 && Pow256(4) == TWO32;
      BigEndianInjective(s[i], t[i], 4);
      WordsInjective(s, t, i + 1);
      assert s[i..] == [s[i]] + s[i + 1..] && t[i..] == [t[i]] + t[i + 1..];
    }
  }

  lemma OutputInjective(s: State, t: State)
    requires Output(s) == Output(t)
    ensures s == t
  {
    WordsInjective(s, t, 0);
    assert s[0..] == s && t[0..] == t;
  }

  lemma OneBlock(c: Compress, p: Bytes, i: nat)
    requires 64 * i + 64 <= |p|
    ensures Chained(c, p, i + 1) == c(Chained(c, p, i), Block(p, i))
  {
    var m := p[..64 * (i + 1)];
    assert m[..|m| - 64] == p[..64 * i] && m[|m| - 64..] == Block(p, i);
  }

  // Where two blocks leave the same chaining value, they collide or were the same and met the same one.
  lemma BlocksCollide(c: Compress, p: Bytes, q: Bytes, i: nat, j: nat)
    requires 64 * i + 64 <= |p| && 64 * j + 64 <= |q| && Chained(c, p, i + 1) == Chained(c, q, j + 1)
    ensures CollideAt(c, p, q, i, j) || (Chained(c, p, i) == Chained(c, q, j) && Block(p, i) == Block(q, j))
  {
    OneBlock(c, p, i);
    OneBlock(c, q, j);
  }

  lemma PrefixGrows(p: Bytes, q: Bytes, n: nat)
    requires 64 * n + 64 <= |p| && 64 * n + 64 <= |q| && Block(p, n) == Block(q, n) && p[..64 * n] == q[..64 * n]
    ensures p[..64 * (n + 1)] == q[..64 * (n + 1)]
  {
    assert p[..64 * (n + 1)] == p[..64 * n] + Block(p, n) && q[..64 * (n + 1)] == q[..64 * n] + Block(q, n);
  }

  lemma {:induction false} SameLengthCollision(c: Compress, p: Bytes, q: Bytes, n: nat) returns (i: nat)
    requires 64 * n <= |p| == |q| && p[..64 * n] != q[..64 * n] && Chained(c, p, n) == Chained(c, q, n)
    ensures CollideAt(c, p, q, i, i)
  {
    i := n - 1;
    BlocksCollide(c, p, q, n - 1, n - 1);
    if !CollideAt(c, p, q, n - 1, n - 1) {
      if p[..64 * (n - 1)] == q[..64 * (n - 1)] { PrefixGrows(p, q, n - 1); }
      i := SameLengthCollision(c, p, q, n - 1);
    }
  }

  lemma LengthField(m: Bytes)
    ensures Padded(m)[|Padded(m)| - 64..][56..] == BigEndian64(BitLength(Marked(m)))
    ensures |Padded(m)| == |Marked(m)| + 8
    ensures |m| < TWO64 / 8 - 128 ==> BitLength(Marked(m)) == 8 * |Marked(m)|
  {
    assert |Marked(m)| <= |m| + 64;
  }

  // The length fields tell the messages' lengths apart where they have to.
  ghost predicate LengthsTell(m: Bytes, n: Bytes) {
    |Padded(m)| == |Padded(n)| || BitLength(Marked(m)) != BitLength(Marked(n))
  }

  // They always do below 2^64 bits.
  lemma ShortLengthsTell(m: Bytes, n: Bytes)
    requires |m| < TWO64 / 8 - 128 && |n| < TWO64 / 8 - 128
    ensures LengthsTell(m, n)
  {
    LengthField(m);
    LengthField(n);
  }

  lemma LastBlocksDiffer(m: Bytes, n: Bytes)
    requires BitLength(Marked(m)) != BitLength(Marked(n))
    ensures Padded(m)[|Padded(m)| - 64..] != Padded(n)[|Padded(n)| - 64..]
  {
    LengthField(m);
    LengthField(n);
    Pow256Of8();
    if BigEndian64(BitLength(Marked(m))) == BigEndian64(BitLength(Marked(n))) {
      BigEndianInjective(BitLength(Marked(m)), BitLength(Marked(n)), 8);
    }
  }

  // p consists of n blocks, the last of which is what it ends with.
  ghost predicate OfBlocks(p: Bytes, n: nat) {
    n > 0 && |p| == 64 * n && p[..64 * n] == p && Block(p, n - 1) == p[|p| - 64..]
  }

  lemma WholePadding(m: Bytes) returns (n: nat)
    ensures OfBlocks(Padded(m), n)
  {
    var p := Padded(m);
    n := |p| / 64;
    assert p[..64 * n] == p;
  }

  lemma SameLengths(c: Compress, p: Bytes, q: Bytes, n: nat) returns (i: nat)
    requires OfBlocks(p, n) && OfBlocks(q, n) && p != q && Absorb(c, p) == Absorb(c, q)
    ensures CollideAt(c, p, q, i, i)
  {
    i := SameLengthCollision(c, p, q, n);
  }

  lemma OtherLengths(c: Compress, p: Bytes, q: Bytes, k: nat, l: nat)
    requires OfBlocks(p, k) && OfBlocks(q, l) && p[|p| - 64..] != q[|q| - 64..] && Absorb(c, p) == Absorb(c, q)
    ensures CollideAt(c, p, q, k - 1, l - 1)
  {
    BlocksCollide(c, p, q, k - 1, l - 1);
  }

  lemma PaddedTell(m: Bytes, n: Bytes)
    requires m != n
    ensures Padded(m) != Padded(n)
  {
    if Padded(m) == Padded(n) { PaddedInjective(m, n); }
  }

  // Two different messages with the same hash collide inside the compression function, at blocks of their
  // own padded forms: although its length field is not the standard's, the padding is as strong.
  lemma CollisionReduces(c: Compress, m: Bytes, n: Bytes) returns (i: nat, j: nat)
    requires m != n && Hash(c, m) == Hash(c, n) && LengthsTell(m, n)
    ensures CollideAt(c, Padded(m), Padded(n), i, j)
  {
    var p, q := Padded(m), Padded(n);
    OutputInjective(Absorb(c, p), Absorb(c, q));
    var k := WholePadding(m);
    var l := WholePadding(n);
    if |p| == |q| {
      PaddedTell(m, n);
      i := SameLengths(c, p, q, k);
      j := i;
    } else {
      LastBlocksDiffer(m, n);
      OtherLengths(c, p, q, k, l);
      i, j := k - 1, l - 1;
    }
  }
}
