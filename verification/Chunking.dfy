// rolling_hash.hpp, chunker.hpp/.cpp: content-defined chunking with a gear rolling hash.
module Chunking {
  import opened Basics

  // The table of 64-bit constants; nothing below depends on its values.
  type Gear = g: seq<u64> | |g| == 256 witness seq(256, i => 0)

  datatype Chunk = Chunk(offset: nat, data: Bytes, hash: Digest)

  // ---------- The rolling hash ----------

  function Rolled(gear: Gear, hash: u64, b: byte): u64 {
    (2 * hash + gear[b]) % TWO64
  }

  // The hash after rolling in every byte of w since the last reset.
  function RollAll(gear: Gear, w: Bytes): u64 {
    if w == [] then 0 else Rolled(gear, RollAll(gear, w[..|w| - 1]), w[|w| - 1])
  }

  // The table values of w, each weighted by how long ago its byte came in.
  ghost function WeightedSum(gear: Gear, w: Bytes): nat {
    if w == [] then 0 else Pow2(|w| - 1) * gear[w[0]] + WeightedSum(gear, w[1..])
  }

  class RollingHash {
    const gear: Gear
    var hash: u64

    constructor (gear: Gear)
      ensures hash == 0 && this.gear == gear
    {
      this.gear := gear;
      hash := 0;
    }

    method Reset()
      modifies this
      ensures hash == 0
    {
      hash := 0;
    }

    method Roll(b: byte) returns (h: u64)
      modifies this
      ensures h == hash == Rolled(gear, old(hash), b)
    {
      hash := (hash * 2 + gear[b]) % TWO64;
      h := hash;
    }
  }

  lemma ModSplit(p: nat, x: nat, y: nat)
    requires p > 0
    ensures (p * x + y) % p == y % p
  {
    var n := p * x + y;
    assert p * (x + y / p) == p * x + p * (y / p);
    DivModUnique(p, x + y / p, y % p, n / p, n % p);
  }

  lemma Pow2Add(a: nat, b: nat)
    ensures Pow2(a + b) == Pow2(a) * Pow2(b)
  {
    if a > 0 { Pow2Add(a - 1, b); }
  }

  lemma Pow2Of64()
    ensures Pow2(64) == TWO64
  {
    assert Pow2(8) == 256;
    Pow2Add(8, 8);
    Pow2Add(16, 16);
    Pow2Add(32, 32);
  }

  lemma MulAssoc(a: nat, b: nat, c: nat)
    ensures a * b * c == a * (b * c)
  {
  }

  lemma MultipleVanishes(p: nat, q: nat, a: nat, b: nat)
    requires p > 0
    ensures (p * q * a + b) % p == b % p
  {
    MulAssoc(p, q, a);
    ModSplit(p, q * a, b);
  }

  lemma WrappedRemainder(p: nat, q: nat, x: nat)
    requires p > 0 && p * q == TWO64
    ensures (x % TWO64) % p == x % p
  {
    var a, b := x / TWO64, x % TWO64;
    assert x == TWO64 * a + b;
    MultipleVanishes(p, q, a, b);
  }

  // Low-order bits survive the wrap at 2^64.
  lemma LowBitsOfWrapped(x: nat, k: nat)
    requires k <= 64
    ensures (x % TWO64) % Pow2(k) == x % Pow2(k)
  {
    Pow2Of64();
    Pow2Add(k, 64 - k);
    WrappedRemainder(Pow2(k), Pow2(64 - k), x);
  }

  lemma SumRemainder(p: nat, q: nat, w: nat, a: nat, b: nat, s: nat)
    requires p > 0 && w == p * q && s == w * a + b
    ensures s % p == b % p
  {
    MultipleVanishes(p, q, a, b);
  }

  lemma Factor(p: nat, q: nat, g: nat, s: nat)
    ensures p * q * g + q * s == q * (p * g + s)
  {
    assert p * q * g == q * (p * g);
    assert q * (p * g + s) == q * (p * g) + q * s;
  }

  // Dropping the oldest bytes removes a multiple of the remaining weight.
  lemma {:induction false} WeightedSumSplit(gear: Gear, u: Bytes, v: Bytes)
    ensures WeightedSum(gear, u + v) == Pow2(|v|) * WeightedSum(gear, u) + WeightedSum(gear, v)
  {
    if u == [] {
      assert u + v == v;
    } else {
      assert (u + v)[1..] == u[1..] + v;
      WeightedSumSplit(gear, u[1..], v);
      Pow2Add(|u| - 1, |v|);
      Factor(Pow2(|u| - 1), Pow2(|v|), gear[u[0]], WeightedSum(gear, u[1..]));
    }
  }

  // The rolling hash is the weighted sum of the table values since the last reset, mod 2^64.
  lemma {:induction false} RollingHashIsWeightedSum(gear: Gear, w: Bytes)
    ensures RollAll(gear, w) == WeightedSum(gear, w) % TWO64
  {
    if w != [] {
      var u, b := w[..|w| - 1], w[|w| - 1];
      assert w == u + [b];
      RollingHashIsWeightedSum(gear, u);
      WeightedSumSplit(gear, u, [b]);
      assert WeightedSum(gear, [b]) == gear[b] by { assert Pow2(0) == 1; }
      RolledRemainder(WeightedSum(gear, u), gear[b]);
    }
  }

  lemma RolledRemainder(s: nat, g: nat)
    ensures (2 * (s % TWO64) + g) % TWO64 == (2 * s + g) % TWO64
  {
    var q := s / TWO64;
    assert 2 * s + g == TWO64 * (2 * q) + (2 * (s % TWO64) + g);
    ModSplit(TWO64, 2 * q, 2 * (s % TWO64) + g);
  }

  // The low k bits depend on the last k bytes only.
  lemma LowBitsAreLocal(gear: Gear, u: Bytes, v: Bytes, k: nat)
    requires k <= 64 && k <= |v|
    ensures RollAll(gear, u + v) % Pow2(k) == RollAll(gear, v) % Pow2(k)
  {
    RollingHashIsWeightedSum(gear, u + v);
    RollingHashIsWeightedSum(gear, v);
    WeightedSumSplit(gear, u, v);
    LowBitsOfWrapped(WeightedSum(gear, u + v), k);
    LowBitsOfWrapped(WeightedSum(gear, v), k);
    Pow2Add(k, |v| - k);
    SumRemainder(Pow2(k), Pow2(|v| - k), Pow2(|v|), WeightedSum(gear, u), WeightedSum(gear, v), WeightedSum(gear, u + v));
  }

  // ---------- The cut rule ----------

  lemma HalfRemainder(h: nat, p: nat)
    requires p > 0
    ensures h % (2 * p) == 2 * (h / 2 % p) + h % 2
  {
    var q, r := h / 2 / p, h / 2 % p;
    assert h / 2 == p * q + r;
    assert 2 * p * q == 2 * (p * q);
    DivModUnique(2 * p, q, 2 * r + h % 2, h / (2 * p), h % (2 * p));
  }

  // h & ((1 << k) - 1), bit by bit.
  function LowBits(h: nat, k: nat): nat {
    if k == 0 then 0 else 2 * LowBits(h / 2, k - 1) + h % 2
  }

  lemma {:induction false} LowBitsAreRemainder(h: nat, k: nat)
    ensures LowBits(h, k) == h % Pow2(k)
  {
    if k > 0 {
      LowBitsAreRemainder(h / 2, k - 1);
      HalfRemainder(h, Pow2(k - 1));
    }
  }

  // The configured chunker. maskBits stands for mask_, which keeps that many low bits (all 64 from 64 on).
  datatype Config = Config(gear: Gear, minSize: u64, maxSize: u64, maskBits: nat)

  function Masked(h: u64, maskBits: nat): nat {
    LowBits(h, if maskBits >= 64 then 64 else maskBits)
  }

  predicate ContentRule(c: Config, w: Bytes) {
    |w| >= c.minSize && Masked(RollAll(c.gear, w), c.maskBits) == 0
  }

  // A chunk that has grown to w is cut here.
  predicate Cuts(c: Config, w: Bytes) {
    ContentRule(c, w) || |w| >= c.maxSize
  }

  // What makes w a chunk by its bytes: it is as long as allowed, or long enough and the weighted sum of its
  // table values is divisible by 2^maskBits (by 2^64, if the mask is all ones).
  ghost predicate Boundary(c: Config, w: Bytes) {
    || |w| >= c.maxSize
    || (|w| >= c.minSize && WeightedSum(c.gear, w) % Pow2(if c.maskBits >= 64 then 64 else c.maskBits) == 0)
  }

  // The rolling hash, its mask and the two sizes decide just that.
  lemma CutsExactly(c: Config, w: Bytes)
    ensures Cuts(c, w) <==> Boundary(c, w)
  {
    var k := if c.maskBits >= 64 then 64 else c.maskBits;
    LowBitsAreRemainder(RollAll(c.gear, w), k);
    RollingHashIsWeightedSum(c.gear, w);
    LowBitsOfWrapped(WeightedSum(c.gear, w), k);
  }

  // The length of the first chunk of the remaining bytes s: the least positive length at which the
  // rule fires, or all of s.
  function CutLength(c: Config, s: Bytes, from: nat): (len: nat)
    requires 1 <= from <= |s|
    ensures from <= len <= |s|
    decreases |s| - from
  {
    if Cuts(c, s[..from]) || from == |s| then from else CutLength(c, s, from + 1)
  }

  lemma {:induction false} CutLengthMeaning(c: Config, s: Bytes, from: nat)
    requires 1 <= from <= |s|
    ensures var len := CutLength(c, s, from);
        (len < |s| ==> Cuts(c, s[..len])) && forall k | from <= k < len :: !Cuts(c, s[..k])
    decreases |s| - from
  {
    if !Cuts(c, s[..from]) && from < |s| { CutLengthMeaning(c, s, from + 1); }
  }

  function MakeChunk(h: HashFn, data: Bytes, start: nat, end: nat): Chunk
    requires start <= end <= |data|
  {
    Chunk(start, data[start..end], h(data[start..end]))
  }

  // The chunks of the bytes s found at offset.
  function ChunksOf(c: Config, h: HashFn, s: Bytes, offset: nat): seq<Chunk> {
    if s == [] then [] else
    var len := CutLength(c, s, 1);
    [Chunk(offset, s[..len], h(s[..len]))] + ChunksOf(c, h, s[len..], offset + len)
  }

  // bits halvings of avg leave v.
  ghost predicate Scaled(bits: nat, v: nat, avg: nat) {
    if avg == 0 then v == 0 && bits == 0 else v >= 1 && Pow2(bits) * v <= avg < Pow2(bits) * (v + 1)
  }

  lemma Monotone(p: nat, x: nat, y: nat)
    requires x <= y
    ensures p * x <= p * y
  {
    if x < y { Distributes(p, y, x); AtLeastOnce(p, y - x); }
  }

  lemma Twice(p: nat, x: nat)
    ensures p * (2 * x) == 2 * p * x
  {
  }

  lemma Halved(bits: nat, v: nat, avg: nat)
    requires Scaled(bits, v, avg) && v > 1
    ensures Scaled(bits + 1, v / 2, avg)
  {
    var p, half := Pow2(bits), v / 2;
    Twice(p, half);
    Twice(p, half + 1);
    Monotone(p, 2 * half, v);
    Monotone(p, v + 1, 2 * (half + 1));
  }

  class Chunker {
    const config: Config
    const hash: HashFn

    constructor (gear: Gear, hash: HashFn, minSize: u64, avgSize: u64, maxSize: u64)
      ensures config == Config(gear, minSize, maxSize, config.maskBits) && this.hash == hash
      ensures Pow2(config.maskBits) <= (if avgSize == 0 then 1 else avgSize) < Pow2(config.maskBits + 1)
    {
      var bits, v := 0, avgSize;
      while v > 1
        invariant Scaled(bits, v, avgSize)
      {
        Halved(bits, v, avgSize);
        v := v / 2;
        bits := bits + 1;
      }
      config := Config(gear, minSize, maxSize, bits);
      this.hash := hash;
    }

    method Chunk(data: Bytes) returns (chunks: seq<Chunk>)
      ensures chunks == ChunksOf(config, hash, data, 0)
    {
      chunks := [];
      if data == [] { return; }
      var rh := new RollingHash(config.gear);
      var start, i, n := 0, 0, |data|;
      assert data[0..] == data;
      while i < n
        invariant fresh(rh) && rh.gear == config.gear
        invariant i == start <= n
        invariant SplitUpTo(config, hash, data, start, chunks)
      {
        rh.Reset();
        var j, end := start, n;
        var cut := false;
        assert data[start..start] == [];
        while j < n && !cut
          invariant rh.gear == config.gear && Scanned(config, data, start, j, rh.hash, cut, end)
        {
          ScanOneMore(config, data, start, j, rh.hash);
          var h := rh.Roll(data[j]);
          var window := j - start + 1;
          var atMin, atMax := window >= config.minSize, window >= config.maxSize;
          var boundary := atMin && Masked(h, config.maskBits) == 0;
          j := j + 1;
          if boundary || atMax {
            end := j;
            cut := true;
          }
        }
        FirstChunk(config, hash, data, start, end, chunks);
        chunks := chunks + [MakeChunk(hash, data, start, end)];
        start := end;
        i := end;
      }
    }
  }

  ghost predicate NoCutUpTo(c: Config, data: Bytes, start: nat, end: nat)
    requires start <= end <= |data|
  {
    forall k | start < k <= end :: !Cuts(c, data[start..k])
  }

  // The chunks found so far are the first ones of the whole input.
  ghost predicate SplitUpTo(c: Config, h: HashFn, data: Bytes, start: nat, chunks: seq<Chunk>)
    requires start <= |data|
  {
    chunks + ChunksOf(c, h, data[start..], start) == ChunksOf(c, h, data, 0)
  }

  // The scan from start has reached j: either the rule has just fired there, or it has not fired yet.
  ghost predicate Scanned(c: Config, data: Bytes, start: nat, j: nat, hash: u64, cut: bool, end: nat) {
    && start <= j <= |data| && hash == RollAll(c.gear, data[start..j])
    && if cut then start < end == j && NoCutUpTo(c, data, start, j - 1) && Cuts(c, data[start..j])
       else end == |data| && NoCutUpTo(c, data, start, j)
  }

  lemma ScanOneMore(c: Config, data: Bytes, start: nat, j: nat, hash: u64)
    requires j < |data| && Scanned(c, data, start, j, hash, false, |data|)
    ensures var h, window := Rolled(c.gear, hash, data[j]), j + 1 - start;
        var cut := (window >= c.minSize && Masked(h, c.maskBits) == 0) || window >= c.maxSize;
        Scanned(c, data, start, j + 1, h, cut, if cut then j + 1 else |data|)
  {
    RollOneMore(c.gear, data, start, j);
  }

  lemma RollOneMore(gear: Gear, data: Bytes, start: nat, j: nat)
    requires start <= j < |data|
    ensures RollAll(gear, data[start..j + 1]) == Rolled(gear, RollAll(gear, data[start..j]), data[j])
  {
    var w := data[start..j + 1];
    assert w[..|w| - 1] == data[start..j] && w[|w| - 1] == data[j];
  }

  // The scan from start has found the next chunk.
  lemma FirstChunk(c: Config, h: HashFn, data: Bytes, start: nat, end: nat, chunks: seq<Chunk>)
    requires start < end <= |data| && SplitUpTo(c, h, data, start, chunks)
    requires end < |data| ==> Cuts(c, data[start..end])
    requires NoCutUpTo(c, data, start, end - 1)
    ensures SplitUpTo(c, h, data, end, chunks + [MakeChunk(h, data, start, end)])
  {
    var s := data[start..];
    var len := CutLength(c, s, 1);
    CutLengthMeaning(c, s, 1);
    assert s[..len] == data[start..start + len];
    assert s[..end - start] == data[start..end];
    assert len == end - start;
    assert s[len..] == data[end..];
    var first, rest := [MakeChunk(h, data, start, end)], ChunksOf(c, h, data[end..], end);
    assert ChunksOf(c, h, s, start) == first + rest;
    assert chunks + (first + rest) == (chunks + first) + rest;
  }
}
