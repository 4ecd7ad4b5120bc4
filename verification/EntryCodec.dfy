// entry_codec.hpp/.cpp, and the two texts made of its lines: the manifest of network.cpp and the journal
// of sync_engine.cpp. Text is one char per byte.
module EntryCodec {
  import opened Basics
  import opened Text
  import opened VectorClocks
  import opened CrdtStores

  // ---------- Digests ----------

  function HexToDigest(hex: string): Result<Digest> {
    match HexBytes(hex, 32)
    case Ok(d) => Ok(d)
    case Err => Err
  }

  lemma DigestRoundTrip(d: Digest)
    ensures HexToDigest(ToHex(d)) == Ok(d)
  {
    HexRoundTrip(d);
  }

  function Hexes(ds: seq<Digest>): (parts: seq<string>)
    ensures |parts| == |ds|
  {
    if ds == [] then [] else [ToHex(ds[0])] + Hexes(ds[1..])
  }

  // Empty fields are skipped.
  function Digests(parts: seq<string>): Result<seq<Digest>> {
    if parts == [] then Ok([])
    else if parts[0] == "" then Digests(parts[1..])
    else match (HexToDigest(parts[0]), Digests(parts[1..]))
      case (Ok(d), Ok(rest)) => Ok([d] + rest)
      case _ => Err
  }

  // A non-empty field without delimiters.
  ghost predicate Plain(p: string) {
    p != "" && '\t' !in p && '\n' !in p && ',' !in p && ':' !in p
  }

  lemma HexIsPlain(d: Digest)
    ensures Plain(ToHex(d))
  {
    HexRoundTrip(d);
    assert forall c | c in ToHex(d) :: c !in "\t\n,:";
    assert '\t' in "\t\n,:" && '\n' in "\t\n,:" && ',' in "\t\n,:" && ':' in "\t\n,:";
  }

  lemma {:induction false} HexesRoundTrip(ds: seq<Digest>)
    ensures Digests(Hexes(ds)) == Ok(ds)
    ensures forall i | 0 <= i < |ds| :: Plain(Hexes(ds)[i])
  {
    if ds != [] {
      HexesRoundTrip(ds[1..]);
      DigestRoundTrip(ds[0]);
      HexIsPlain(ds[0]);
      assert Hexes(ds)[1..] == Hexes(ds[1..]);
      assert ds == [ds[0]] + ds[1..];
    }
  }

  // ---------- Clocks ----------

  function PairText(c: Clock, node: string): string {
    node + ":" + Decimal(Get(c, node))
  }

  function PairTexts(c: Clock, keys: seq<string>): (parts: seq<string>)
    ensures |parts| == |keys|
  {
    if keys == [] then [] else [PairText(c, keys[0])] + PairTexts(c, keys[1..])
  }

  function ClockText(c: Clock): string {
    JoinWith(PairTexts(c, SortedKeys(c.Keys)), ',')
  }

  // One "node:count" field; a field without a colon is skipped.
  function SetFromPair(c: Clock, pair: string): Result<Clock> {
    var node := UpTo(pair, ':');
    if |node| == |pair| then Ok(c)
    else match ParseU64(pair[|node| + 1..])
      case Ok(val) => Ok(c[node := val])
      case Err => Err
  }

  function ClockFromPairs(c: Clock, pairs: seq<string>): Result<Clock>
    decreases |pairs|
  {
    if pairs == [] then Ok(c)
    else match SetFromPair(c, pairs[0])
      case Ok(c') => ClockFromPairs(c', pairs[1..])
      case Err => Err
  }

  function ClockFromText(s: string): Result<Clock> {
    ClockFromPairs(map[], Split(s, ','))
  }

  // ---------- Entries ----------

  function Fields(e: FileEntry): (fields: seq<string>)
    ensures |fields| == 7
  {
    [e.path, if e.deleted then "1" else "0", Decimal(e.size), ToHex(e.merkleRoot), ClockText(e.clock), e.lastWriter,
     JoinWith(Hexes(e.chunkHashes), ',')]
  }

  function EntryLine(e: FileEntry): string {
    JoinWith(Fields(e), '\t')
  }

  function Padded(fields: seq<string>): seq<string>
    decreases 7 - |fields|
  {
    if |fields| < 7 then Padded(fields + [""]) else fields
  }

  function EntryFromFields(f: seq<string>): Result<FileEntry>
    requires |f| >= 7
  {
    match (if f[2] == "" then Ok(0) else ParseU64(f[2]), HexToDigest(f[3]), ClockFromText(f[4]), Digests(Split(f[6], ',')))
    case (Ok(size), Ok(root), Ok(clock), Ok(hashes)) =>
      Ok(FileEntry(f[0], hashes, root, clock, f[5], f[1] == "1", size))
    case _ => Err
  }

  lemma {:induction false} PaddedLength(fields: seq<string>)
    ensures |Padded(fields)| >= 7
    ensures |fields| >= 7 ==> Padded(fields) == fields
    ensures |fields| == 6 ==> Padded(fields) == fields + [""]
    ensures forall f | f in Padded(fields) :: f == "" || f in fields
    decreases 7 - |fields|
  {
    if |fields| < 7 { PaddedLength(fields + [""]); }
  }

  function EntryFromLine(line: string): Result<FileEntry> {
    PaddedLength(Split(line, '\t'));
    EntryFromFields(Padded(Split(line, '\t')))
  }

  // ---------- Round trips ----------

  // What the format can carry: no delimiter inside a path, a writer or a node id.
  ghost predicate Clean(e: FileEntry) {
    && '\t' !in e.path && '\t' !in e.lastWriter
    && forall n | n in e.clock :: CleanId(n)
  }

  ghost predicate CleanId(n: string) {
    '\t' !in n && ',' !in n && ':' !in n
  }

  lemma PairRoundTrip(c: Clock, acc: Clock, node: string)
    requires ':' !in node
    ensures SetFromPair(acc, PairText(c, node)) == Ok(acc[node := Get(c, node)])
  {
    DecimalRoundTrip(Get(c, node));
    UpToUnique(node, ":" + Decimal(Get(c, node)), ':');
    assert PairText(c, node) == node + (":" + Decimal(Get(c, node)));
  }

  ghost function Restricted(c: Clock, keys: seq<string>): Clock {
    map k | k in keys :: Get(c, k)
  }

  lemma RestrictedFirst(c: Clock, acc: Clock, keys: seq<string>)
    requires keys != []
    ensures acc[keys[0] := Get(c, keys[0])] + Restricted(c, keys[1..]) == acc + Restricted(c, keys)
  {
    var l, r := acc[keys[0] := Get(c, keys[0])] + Restricted(c, keys[1..]), acc + Restricted(c, keys);
    assert forall k :: k in keys <==> k == keys[0] || k in keys[1..];
    assert l.Keys == r.Keys;
  }

  lemma {:induction false} PairsRoundTrip(c: Clock, acc: Clock, keys: seq<string>)
    requires forall k | k in keys :: ':' !in k
    ensures ClockFromPairs(acc, PairTexts(c, keys)) == Ok(acc + Restricted(c, keys))
    decreases |keys|
  {
    if keys == [] {
      assert acc + Restricted(c, keys) == acc;
    } else {
      PairRoundTrip(c, acc, keys[0]);
      PairsRoundTrip(c, acc[keys[0] := Get(c, keys[0])], keys[1..]);
      RestrictedFirst(c, acc, keys);
      assert PairTexts(c, keys)[1..] == PairTexts(c, keys[1..]);
    }
  }

  lemma {:induction false} PairTextsFree(c: Clock, keys: seq<string>, d: char)
    requires d != ':' && !IsDigit(d) && forall k | k in keys :: d !in k
    ensures Free(PairTexts(c, keys), d)
    ensures forall i | 0 <= i < |keys| :: PairTexts(c, keys)[i] != ""
  {
    if keys != [] {
      PairTextsFree(c, keys[1..], d);
      DecimalDigits(Get(c, keys[0]));
    }
  }

  lemma ClockWireRoundTrip(c: Clock, keys: seq<string>)
    requires forall k :: k in keys <==> k in c
    requires forall k | k in keys :: CleanId(k)
    ensures ClockFromText(JoinWith(PairTexts(c, keys), ',')) == Ok(c)
  {
    var parts := PairTexts(c, keys);
    PairTextsFree(c, keys, ',');
    if keys != [] { SplitJoin(parts, ','); }
    PairsRoundTrip(c, map[], keys);
    RestrictedWhole(c, keys);
  }

  lemma RestrictedWhole(c: Clock, keys: seq<string>)
    requires forall k :: k in keys <==> k in c
    ensures map[] + Restricted(c, keys) == c
  {
  }

  lemma ClockRoundTrip(c: Clock)
    requires forall n | n in c :: CleanId(n)
    ensures ClockFromText(ClockText(c)) == Ok(c)
  {
    ClockWireRoundTrip(c, SortedKeys(c.Keys));
  }

  lemma {:induction false} JoinFree(parts: seq<string>, sep: char, d: char)
    requires Free(parts, d) && sep != d
    ensures d !in JoinWith(parts, sep)
  {
    if |parts| > 1 { JoinFree(parts[1..], sep, d); }
  }

  lemma ClockTextFree(c: Clock, d: char)
    requires d in "\t\n" && forall n | n in c :: d !in n
    ensures d !in ClockText(c)
  {
    var keys := SortedKeys(c.Keys);
    PairTextsFree(c, keys, d);
    JoinFree(PairTexts(c, keys), ',', d);
  }

  lemma HashesTextFree(ds: seq<Digest>, d: char)
    requires d in "\t\n"
    ensures d !in JoinWith(Hexes(ds), ',')
  {
    HexesRoundTrip(ds);
    JoinFree(Hexes(ds), ',', d);
  }

  lemma HashesRoundTrip(ds: seq<Digest>)
    ensures Digests(Split(JoinWith(Hexes(ds), ','), ',')) == Ok(ds)
  {
    HexesRoundTrip(ds);
    if ds != [] { SplitJoin(Hexes(ds), ','); }
  }

  lemma NumberTextFree(n: nat, d: char)
    requires d in "\t\n"
    ensures d !in Decimal(n)
  {
    DecimalDigits(n);
  }

  lemma FieldsFree(e: FileEntry, d: char)
    requires d in "\t\n" && d !in e.path && d !in e.lastWriter && forall n | n in e.clock :: d !in n
    ensures Free(Fields(e), d)
  {
    NumberTextFree(e.size, d);
    HexIsPlain(e.merkleRoot);
    ClockTextFree(e.clock, d);
    HashesTextFree(e.chunkHashes, d);
  }

  lemma FieldsRoundTrip(e: FileEntry)
    requires forall n | n in e.clock :: CleanId(n)
    ensures EntryFromFields(Fields(e)) == Ok(e)
  {
    DecimalDigits(e.size);
    DecimalRoundTrip(e.size);
    DigestRoundTrip(e.merkleRoot);
    ClockRoundTrip(e.clock);
    HashesRoundTrip(e.chunkHashes);
  }

  // A line of the format, field by field; a last field that is empty is not seen.
  lemma EntryLineFields(e: FileEntry)
    requires Clean(e)
    ensures Split(EntryLine(e), '\t') == DropEmptyLast([e.path, if e.deleted then "1" else "0", Decimal(e.size),
        ToHex(e.merkleRoot), ClockText(e.clock), e.lastWriter, JoinWith(Hexes(e.chunkHashes), ',')])
  {
    FieldsFree(e, '\t');
    SplitJoin(Fields(e), '\t');
  }

  lemma {:induction false} PairTextAt(c: Clock, keys: seq<string>, i: nat)
    requires i < |keys|
    ensures PairTexts(c, keys)[i] == keys[i] + ":" + Decimal(Get(c, keys[i]))
  {
    if i > 0 { PairTextAt(c, keys[1..], i - 1); }
  }

  // A clock is listed in the order of the node ids, each with its counter.
  lemma ClockTextPairs(c: Clock, i: nat)
    requires (forall n | n in c :: CleanId(n)) && i < |SortedKeys(c.Keys)|
    ensures var keys, pairs := SortedKeys(c.Keys), Split(ClockText(c), ',');
        |pairs| == |keys| && pairs[i] == keys[i] + ":" + Decimal(c[keys[i]])
  {
    var keys := SortedKeys(c.Keys);
    PairTextsFree(c, keys, ',');
    SplitJoin(PairTexts(c, keys), ',');
    PairTextAt(c, keys, i);
    assert keys[i] in keys;
  }

  lemma {:induction false} HexesAt(ds: seq<Digest>, i: nat)
    requires i < |ds|
    ensures Hexes(ds)[i] == ToHex(ds[i])
  {
    if i > 0 { HexesAt(ds[1..], i - 1); }
  }

  // The chunk hashes are listed in the order of the file.
  lemma HashesTextNames(ds: seq<Digest>, i: nat)
    requires i < |ds|
    ensures var names := Split(JoinWith(Hexes(ds), ','), ','); |names| == |ds| && names[i] == ToHex(ds[i])
  {
    HexesRoundTrip(ds);
    SplitJoin(Hexes(ds), ',');
    HexesAt(ds, i);
  }

  // The i-th field of a line, empty if the line is shorter.
  function FieldAt(line: string, i: nat): string {
    var f := Split(line, '\t');
    if i < |f| then f[i] else ""
  }

  lemma {:induction false} PaddedFields(f: seq<string>, i: nat)
    requires i < 7
    ensures |Padded(f)| >= 7 && Padded(f)[i] == if i < |f| then f[i] else ""
    decreases 7 - |f|
  {
    if |f| < 7 { PaddedFields(f + [""], i); }
  }

  // What is read from any line, however many fields it has.
  lemma ParsedFields(line: string, e: FileEntry)
    requires EntryFromLine(line) == Ok(e)
    ensures e.path == FieldAt(line, 0) && e.lastWriter == FieldAt(line, 5) && (e.deleted <==> FieldAt(line, 1) == "1")
    ensures FieldAt(line, 2) == "" ==> e.size == 0
    ensures FieldAt(line, 4) == "" ==> e.clock == map[]
    ensures FieldAt(line, 6) == "" ==> e.chunkHashes == []
  {
    var f := Split(line, '\t');
    PaddedFields(f, 0);
    PaddedFields(f, 1);
    PaddedFields(f, 2);
    PaddedFields(f, 4);
    PaddedFields(f, 5);
    PaddedFields(f, 6);
  }

  // A field of a clock without a colon is as good as absent; of several for one node the last counts.
  lemma ClockFields(c: Clock, node: string, x: u64, y: u64, rest: seq<string>)
    requires ':' !in node
    ensures ClockFromPairs(c, [node] + rest) == ClockFromPairs(c, rest)
    ensures ClockFromPairs(c, [node + ":" + Decimal(x), node + ":" + Decimal(y)] + rest) == ClockFromPairs(c[node := y], rest)
  {
    UpToUnique(node, "", ':');
    assert node + "" == node && ([node] + rest)[1..] == rest;
    var d, e := c[node := x], c[node := y];
    PairRoundTrip(d, c, node);
    PairRoundTrip(e, d, node);
    var p, q := node + ":" + Decimal(x), node + ":" + Decimal(y);
    assert ([p, q] + rest)[1..] == [q] + rest && ([q] + rest)[1..] == rest;
    assert d[node := y] == e;
  }

  // Reading a line back gives the entry - tombstones with no chunks, empty clocks and all 64-bit values
  // included - exactly when no field contains a delimiter.
  lemma EntryRoundTrip(e: FileEntry)
    ensures EntryFromLine(EntryLine(e)) == Ok(e) <==> Clean(e)
  {
    if Clean(e) {
      FieldsFree(e, '\t');
      SplitJoin(Fields(e), '\t');
      PaddedLength(Split(EntryLine(e), '\t'));
      assert Padded(Split(EntryLine(e), '\t')) == Fields(e);
      FieldsRoundTrip(e);
    }
    if EntryFromLine(EntryLine(e)) == Ok(e) { ParsedIsClean(EntryLine(e), e); }
  }

  // Whatever is read from a line is clean.
  lemma ParsedIsClean(line: string, e: FileEntry)
    requires EntryFromLine(line) == Ok(e)
    ensures Clean(e)
    ensures forall d | d !in line :: d !in e.path && d !in e.lastWriter && forall n | n in e.clock :: d !in n
  {
    var fields := Padded(Split(line, '\t'));
    PaddedLength(Split(line, '\t'));
    SplitClean(line, '\t');
    assert forall f | f in fields :: '\t' !in f && forall c | c in f :: c in line;
    assert fields[0] in fields && fields[4] in fields && fields[5] in fields;
    SplitClean(fields[4], ',');
    ParsedClockIsClean(map[], Split(fields[4], ','), e.clock);
  }

  ghost predicate PartOfOne(n: string, pairs: seq<string>) {
    exists p | p in pairs :: forall x | x in n :: x in p
  }

  lemma {:induction false} ParsedClockIsClean(acc: Clock, pairs: seq<string>, c: Clock)
    requires ClockFromPairs(acc, pairs) == Ok(c)
    ensures forall n | n in c && n !in acc :: ':' !in n && PartOfOne(n, pairs)
    decreases |pairs|
  {
    if pairs != [] {
      var p, rest := pairs[0], pairs[1..];
      var node := UpTo(p, ':');
      var acc' := SetFromPair(acc, p).value;
      ParsedClockIsClean(acc', rest, c);
      forall n | n in c && n !in acc
        ensures ':' !in n && PartOfOne(n, pairs)
      {
        if n in acc' {
          assert n == node && p in pairs;
        } else {
          var q :| q in rest && forall x | x in n :: x in q;
          assert q in pairs;
        }
      }
    }
  }
}
