// The loops of entry_codec.cpp, the manifest of network.cpp and the journal of sync_engine.cpp, proved
// against the text functions of EntryCodec.
module Manifests {
  import opened Basics
  import opened Text
  import opened VectorClocks
  import opened CrdtStores
  import opened EntryCodec

  // ---------- Lists of entries ----------

  function EntriesAt(s: Store, keys: seq<string>): (es: seq<FileEntry>)
    requires forall k | k in keys :: k in s
    ensures |es| == |keys|
    ensures forall i | 0 <= i < |keys| :: es[i] == s[keys[i]]
  {
    if keys == [] then [] else [s[keys[0]]] + EntriesAt(s, keys[1..])
  }

  // CrdtStore::all_entries: in key order.
  function AllEntries(s: Store): seq<FileEntry> {
    EntriesAt(s, SortedKeys(s.Keys))
  }

  lemma AllEntriesComplete(s: Store)
    ensures forall p | p in s :: s[p] in AllEntries(s)
    ensures forall e | e in AllEntries(s) :: exists p | p in s :: s[p] == e
  {
    var keys := SortedKeys(s.Keys);
    forall p | p in s
      ensures s[p] in AllEntries(s)
    {
      var i :| 0 <= i < |keys| && keys[i] == p;
      assert AllEntries(s)[i] == s[p];
    }
    forall e | e in AllEntries(s)
      ensures exists p | p in s :: s[p] == e
    {
      var i :| 0 <= i < |keys| && AllEntries(s)[i] == e;
      assert keys[i] in keys;
    }
  }

  // By path, as the map is ordered.
  lemma AllEntriesInOrder(s: Store, i: nat, j: nat)
    requires Keyed(s) && i < j < |AllEntries(s)|
    ensures Precedes(AllEntries(s)[i].path, AllEntries(s)[j].path)
  {
    var keys := SortedKeys(s.Keys);
    SortedKeysAscend(s.Keys);
    assert keys[i] in keys && keys[j] in keys;
  }

  function Lines(es: seq<FileEntry>): (lines: seq<string>)
    ensures |lines| == |es|
  {
    if es == [] then [] else [EntryLine(es[0])] + Lines(es[1..])
  }

  // Empty lines are skipped.
  function ParseLines(lines: seq<string>): Result<seq<FileEntry>> {
    if lines == [] then Ok([])
    else if lines[0] == "" then ParseLines(lines[1..])
    else match (EntryFromLine(lines[0]), ParseLines(lines[1..]))
      case (Ok(e), Ok(rest)) => Ok([e] + rest)
      case _ => Err
  }

  function ManifestText(nodeId: string, es: seq<FileEntry>): string {
    nodeId + "\n" + Terminated(Lines(es), '\n')
  }

  function ParseManifestText(text: string): Result<seq<FileEntry>> {
    ParseLines(Split(Remainder(text, '\n'), '\n'))
  }

  function JournalText(es: seq<FileEntry>): string {
    Terminated(Lines(es), '\n')
  }

  function LoadAll(s: Store, es: seq<FileEntry>): Store
    decreases |es|
  {
    if es == [] then s else LoadAll(s[es[0].path := es[0]], es[1..])
  }

  // ---------- Round trips ----------

  ghost predicate WireClean(e: FileEntry) {
    Clean(e) && '\n' !in e.path && '\n' !in e.lastWriter && forall n | n in e.clock :: '\n' !in n
  }

  ghost predicate AllWireClean(es: seq<FileEntry>) {
    forall i | 0 <= i < |es| :: WireClean(es[i])
  }

  lemma {:induction false} LinesRoundTrip(es: seq<FileEntry>)
    requires AllWireClean(es)
    ensures Free(Lines(es), '\n') && ParseLines(Lines(es)) == Ok(es)
  {
    if es != [] {
      CleanFirst(es);
      LinesRoundTrip(es[1..]);
      LineIsPlain(es[0]);
      ParsedFirst(EntryLine(es[0]), Lines(es[1..]), es[0], es[1..]);
    }
  }

  lemma CleanFirst(es: seq<FileEntry>)
    requires es != [] && AllWireClean(es)
    ensures WireClean(es[0]) && AllWireClean(es[1..]) && es == [es[0]] + es[1..]
  {
  }

  lemma ParsedFirst(line: string, lines: seq<string>, e: FileEntry, es: seq<FileEntry>)
    requires line != "" && '\n' !in line && EntryFromLine(line) == Ok(e)
    requires Free(lines, '\n') && ParseLines(lines) == Ok(es)
    ensures Free([line] + lines, '\n') && ParseLines([line] + lines) == Ok([e] + es)
  {
    assert ([line] + lines)[1..] == lines;
  }

  lemma LineIsPlain(e: FileEntry)
    requires WireClean(e)
    ensures EntryLine(e) != "" && '\n' !in EntryLine(e) && EntryFromLine(EntryLine(e)) == Ok(e)
  {
    EntryRoundTrip(e);
    FieldsFree(e, '\n');
    JoinFree(Fields(e), '\t', '\n');
    assert EntryLine(e) == Fields(e)[0] + "\t" + JoinWith(Fields(e)[1..], '\t');
  }

  lemma {:induction false} ParsedLinesAreClean(lines: seq<string>, es: seq<FileEntry>)
    requires Free(lines, '\n') && ParseLines(lines) == Ok(es)
    ensures AllWireClean(es)
  {
    if lines != [] {
      if lines[0] == "" {
        ParsedLinesAreClean(lines[1..], es);
      } else {
        ParsedIsClean(lines[0], es[0]);
        ParsedLinesAreClean(lines[1..], es[1..]);
      }
    }
  }

  // What one node serializes the other parses: exactly the same entries in the same order - if and only
  // if no path, writer or node id contains a delimiter of the format.
  lemma ManifestRoundTrip(nodeId: string, es: seq<FileEntry>)
    requires '\n' !in nodeId
    ensures ParseManifestText(ManifestText(nodeId, es)) == Ok(es) <==> AllWireClean(es)
  {
    BodyAfterId(nodeId, JournalText(es));
    JournalRoundTrip(es);
  }

  lemma BodyAfterId(nodeId: string, body: string)
    requires '\n' !in nodeId
    ensures Remainder(nodeId + "\n" + body, '\n') == body
  {
    var rest := "\n" + body;
    assert rest[1..] == body;
    UpToUnique(nodeId, rest, '\n');
    Regrouped(nodeId, "\n", body);
  }

  lemma Regrouped<T>(a: seq<T>, b: seq<T>, c: seq<T>)
    ensures a + b + c == a + (b + c)
  {
  }

  lemma {:induction false} LineAt(es: seq<FileEntry>, i: nat)
    requires i < |es|
    ensures Lines(es)[i] == EntryLine(es[i])
  {
    if i > 0 { LineAt(es[1..], i - 1); }
  }

  // A manifest is the node's id and one line for each entry, in order; a journal is the same without the id.
  lemma ManifestLines(nodeId: string, es: seq<FileEntry>, i: nat)
    requires '\n' !in nodeId && AllWireClean(es) && i < |es|
    ensures var lines := Split(ManifestText(nodeId, es), '\n');
        |lines| == |es| + 1 && lines[0] == nodeId && lines[i + 1] == EntryLine(es[i])
    ensures var lines := Split(JournalText(es), '\n'); |lines| == |es| && lines[i] == EntryLine(es[i])
  {
    LinesRoundTrip(es);
    SplitTerminated(Lines(es), '\n');
    SplitFirst(nodeId, JournalText(es), '\n');
    LineAt(es, i);
  }

  lemma JournalRoundTrip(es: seq<FileEntry>)
    ensures ParseLines(Split(JournalText(es), '\n')) == Ok(es) <==> AllWireClean(es)
  {
    if AllWireClean(es) {
      LinesRoundTrip(es);
      SplitTerminated(Lines(es), '\n');
    }
    SplitClean(JournalText(es), '\n');
    if ParseLines(Split(JournalText(es), '\n')) == Ok(es) { ParsedLinesAreClean(Split(JournalText(es), '\n'), es); }
  }

  lemma {:induction false} LoadAllMeaning(s: Store, es: seq<FileEntry>)
    ensures Keyed(s) ==> Keyed(LoadAll(s, es))
    ensures forall p | p in LoadAll(s, es) :: (p in s && LoadAll(s, es)[p] == s[p]) || LoadAll(s, es)[p] in es
    ensures LoadAll(s, es).Keys == s.Keys + set i | 0 <= i < |es| :: es[i].path
    decreases |es|
  {
    if es != [] {
      var t := s[es[0].path := es[0]];
      LoadAllMeaning(t, es[1..]);
      assert (set i | 0 <= i < |es| :: es[i].path) == {es[0].path} + set i | 0 <= i < |es[1..]| :: es[1..][i].path;
    }
  }

  // Of several entries with one path the last one stays.
  lemma {:induction false} LastLineWins(s: Store, es: seq<FileEntry>, i: nat)
    requires i < |es| && forall j | i < j < |es| :: es[j].path != es[i].path
    ensures es[i].path in LoadAll(s, es) && LoadAll(s, es)[es[i].path] == es[i]
    decreases |es|
  {
    var t := s[es[0].path := es[0]];
    if i > 0 {
      LastLineWins(t, es[1..], i - 1);
    } else {
      LoadAllKeeps(t, es[1..], es[0].path);
    }
  }

  lemma {:induction false} LoadAllKeeps(s: Store, es: seq<FileEntry>, p: string)
    requires p in s && forall j | 0 <= j < |es| :: es[j].path != p
    ensures p in LoadAll(s, es) && LoadAll(s, es)[p] == s[p]
    decreases |es|
  {
    if es != [] { LoadAllKeeps(s[es[0].path := es[0]], es[1..], p); }
  }

  // What a restarted node holds.
  function Reload(text: string): Result<Store> {
    match ParseLines(Split(text, '\n'))
    case Ok(es) => Ok(LoadAll(map[], es))
    case Err => Err
  }

  // Saving the journal and loading it into an empty store restores the store, under the same condition.
  lemma RestartRestoresStore(s: Store)
    requires Keyed(s)
    ensures Reload(JournalText(AllEntries(s))) == Ok(s) <==> AllWireClean(AllEntries(s))
  {
    var es, text := AllEntries(s), JournalText(AllEntries(s));
    JournalRoundTrip(es);
    LoadAllRestores(s);
    if Reload(text) == Ok(s) { ReloadedIsClean(text, s); }
  }

  lemma ReloadedIsClean(text: string, s: Store)
    requires Reload(text) == Ok(s)
    ensures AllWireClean(AllEntries(s))
  {
    var es, lines := AllEntries(s), Split(text, '\n');
    var loaded := ParseLines(lines).value;
    SplitClean(text, '\n');
    ParsedLinesAreClean(lines, loaded);
    LoadAllMeaning(map[], loaded);
    AllEntriesComplete(s);
    forall i | 0 <= i < |es|
      ensures WireClean(es[i])
    {
      assert es[i] in es;
      var p :| p in s && s[p] == es[i];
      assert s[p] in loaded;
    }
  }

  lemma LoadAllRestores(s: Store)
    requires Keyed(s)
    ensures LoadAll(map[], AllEntries(s)) == s
  {
    var es := AllEntries(s);
    LoadAllMeaning(map[], es);
    AllEntriesComplete(s);
    LoadedIsStored(s, es, LoadAll(map[], es));
  }

  lemma LoadedIsStored(s: Store, es: seq<FileEntry>, t: Store)
    requires Keyed(s) && Keyed(t)
    requires forall p | p in s :: s[p] in es
    requires forall e | e in es :: exists p | p in s :: s[p] == e
    requires forall p | p in t :: t[p] in es
    requires t.Keys == set i | 0 <= i < |es| :: es[i].path
    ensures t == s
  {
    forall p | p in s
      ensures p in t
    {
      var i :| 0 <= i < |es| && es[i] == s[p];
      assert es[i].path in t.Keys;
    }
    forall p | p in t
      ensures p in s && t[p] == s[p]
    {
      var q :| q in s && s[q] == t[p];
      assert q == p;
    }
  }

  // ---------- The loops ----------

  method ClockToWire(c: Clock) returns (s: string)
    ensures s == ClockText(c)
  {
    var keys, i := SortedKeys(c.Keys), 0;
    var first := true;
    s := "";
    while i < |keys|
      invariant 0 <= i <= |keys| && (first <==> i == 0)
      invariant s == JoinWith(PairTexts(c, keys[..i]), ',')
    {
      ClockTextStep(c, keys, i);
      if !first { s := s + ","; }
      AppendThree(s, keys[i], ":", Decimal(c[keys[i]]));
      s := s + keys[i] + ":" + Decimal(c[keys[i]]);
      first := false;
      i := i + 1;
    }
    assert keys[..i] == keys;
  }

  lemma ClockTextStep(c: Clock, keys: seq<string>, i: nat)
    requires i < |keys|
    ensures JoinWith(PairTexts(c, keys[..i + 1]), ',')
        == JoinWith(PairTexts(c, keys[..i]), ',') + (if i == 0 then "" else ",") + PairText(c, keys[i])
  {
    PairTextsSnoc(c, keys, i);
    JoinSnoc(PairTexts(c, keys[..i]), PairText(c, keys[i]), ',');
  }

  lemma AppendThree(s: string, a: string, b: string, c: string)
    ensures s + a + b + c == s + (a + b + c)
  {
  }

  lemma {:induction false} PairTextsSnoc(c: Clock, keys: seq<string>, i: nat)
    requires i < |keys|
    ensures PairTexts(c, keys[..i + 1]) == PairTexts(c, keys[..i]) + [PairText(c, keys[i])]
  {
    if i > 0 {
      PairTextsSnoc(c, keys[1..], i - 1);
      assert keys[..i + 1][1..] == keys[1..][..i] && keys[..i][1..] == keys[1..][..i - 1];
    }
  }

  method ClockFromWire(s: string) returns (r: Result<Clock>)
    ensures r == ClockFromText(s)
  {
    var c := new VectorClock(map[]);
    if s == "" { return Ok(c.counters); }
    var ss := new StringReader(s);
    while true
      invariant fresh(ss) && ss.Valid() && fresh(c)
      invariant ClockSoFar(s, c.counters, ss.Rest())
      decreases |ss.Rest()|
    {
      ghost var rest := ss.Rest();
      var ok, pair := ss.GetLine(',');
      if !ok { break; }
      OnePairMore(s, c.counters, rest);
      var read := ReadPair(c, pair);
      if !read { return Err; }
    }
    AllPairsRead(s, c.counters);
    r := Ok(c.counters);
  }

  // One field of the clock; a field without a colon is skipped.
  method ReadPair(c: VectorClock, pair: string) returns (ok: bool)
    modifies c
    ensures SetFromPair(old(c.counters), pair) == if ok then Ok(c.counters) else Err
  {
    var node := UpTo(pair, ':');
    if |node| < |pair| {
      var val := ParseU64(pair[|node| + 1..]);
      if val.Err? { return false; }
      c.Set(node, val.value);
    }
    ok := true;
  }

  ghost predicate ClockSoFar(s: string, c: Clock, rest: string) {
    ClockFromText(s) == ClockFromPairs(c, Split(rest, ','))
  }

  lemma OnePairMore(s: string, c: Clock, rest: string)
    requires ClockSoFar(s, c, rest) && rest != ""
    ensures match SetFromPair(c, UpTo(rest, ','))
      case Ok(c') => ClockSoFar(s, c', Remainder(rest, ','))
      case Err => ClockFromText(s).Err?
  {
    assert Split(rest, ',')[1..] == Split(Remainder(rest, ','), ',');
  }

  lemma AllPairsRead(s: string, c: Clock)
    requires ClockSoFar(s, c, "")
    ensures ClockFromText(s) == Ok(c)
  {
  }

  method EntryToLine(e: FileEntry) returns (line: string)
    ensures line == EntryLine(e)
  {
    var clock := ClockToWire(e.clock);
    line := e.path + "\t" + (if e.deleted then "1" else "0") + "\t" + Decimal(e.size) + "\t" + ToHex(e.merkleRoot) + "\t"
      + clock + "\t" + e.lastWriter + "\t";
    ghost var head := line;
    var i := 0;
    var hashes := e.chunkHashes;
    while i < |hashes|
      invariant 0 <= i <= |hashes|
      invariant line == head + JoinWith(Hexes(hashes[..i]), ',')
    {
      HashesTextStep(head, hashes, i);
      if i != 0 { line := line + ","; }
      line := line + ToHex(hashes[i]);
      i := i + 1;
    }
    assert hashes[..i] == hashes;
    JoinSeven(Fields(e), '\t');
  }

  lemma HashesTextStep(head: string, hashes: seq<Digest>, i: nat)
    requires i < |hashes|
    ensures head + JoinWith(Hexes(hashes[..i + 1]), ',')
        == head + JoinWith(Hexes(hashes[..i]), ',') + (if i == 0 then "" else ",") + ToHex(hashes[i])
  {
    var before, last := JoinWith(Hexes(hashes[..i]), ','), ToHex(hashes[i]);
    HexesSnoc(hashes, i);
    JoinSnoc(Hexes(hashes[..i]), last, ',');
    AppendThree(head, before, if i == 0 then "" else ",", last);
    if i == 0 { assert before == "" && "" + "" + last == last; }
  }

  lemma {:induction false} HexesSnoc(ds: seq<Digest>, i: nat)
    requires i < |ds|
    ensures Hexes(ds[..i + 1]) == Hexes(ds[..i]) + [ToHex(ds[i])]
  {
    if i > 0 {
      HexesSnoc(ds[1..], i - 1);
      assert ds[..i + 1][1..] == ds[1..][..i] && ds[..i][1..] == ds[1..][..i - 1];
    }
  }

  lemma JoinSeven(f: seq<string>, d: char)
    requires |f| == 7
    ensures JoinWith(f, d) == f[0] + [d] + f[1] + [d] + f[2] + [d] + f[3] + [d] + f[4] + [d] + f[5] + [d] + f[6]
  {
    assert JoinWith(f[5..], d) == f[5] + [d] + f[6];
    assert JoinWith(f[4..], d) == f[4] + [d] + JoinWith(f[5..], d);
    assert JoinWith(f[3..], d) == f[3] + [d] + JoinWith(f[4..], d);
    assert JoinWith(f[2..], d) == f[2] + [d] + JoinWith(f[3..], d);
    assert JoinWith(f[1..], d) == f[1] + [d] + JoinWith(f[2..], d);
  }

  method ReadFields(text: string, d: char) returns (fields: seq<string>)
    ensures fields == Split(text, d)
  {
    fields := [];
    var ls := new StringReader(text);
    while true
      invariant fresh(ls) && ls.Valid()
      invariant ReadSoFar(text, d, fields, ls.Rest())
      decreases |ls.Rest()|
    {
      ghost var rest := ls.Rest();
      var ok, field := ls.GetLine(d);
      if !ok { break; }
      ReadOneMore(text, d, fields, rest);
      fields := fields + [field];
    }
    AllRead(text, d, fields);
  }

  lemma AllRead(text: string, d: char, fields: seq<string>)
    requires ReadSoFar(text, d, fields, "")
    ensures fields == Split(text, d)
  {
    assert fields + [] == fields;
  }

  ghost predicate ReadSoFar(text: string, d: char, fields: seq<string>, rest: string) {
    Split(text, d) == fields + Split(rest, d)
  }

  lemma ReadOneMore(text: string, d: char, fields: seq<string>, rest: string)
    requires ReadSoFar(text, d, fields, rest) && rest != ""
    ensures ReadSoFar(text, d, fields + [UpTo(rest, d)], Remainder(rest, d))
  {
    AppendOne(fields, UpTo(rest, d), Split(Remainder(rest, d), d));
  }

  lemma AppendOne<T>(out: seq<T>, x: T, rest: seq<T>)
    ensures out + ([x] + rest) == (out + [x]) + rest
  {
  }

  function Prepended<T>(out: seq<T>, r: Result<seq<T>>): Result<seq<T>> {
    match r
    case Ok(rest) => Ok(out + rest)
    case Err => Err
  }

  lemma PrependedOne<T>(out: seq<T>, x: T, r: Result<seq<T>>)
    ensures Prepended(out, Prepended([x], r)) == Prepended(out + [x], r)
    ensures Prepended([], r) == r && Prepended(out, Ok([])) == Ok(out)
  {
    assert out + [] == out;
    if r.Ok? {
      AppendOne(out, x, r.value);
      assert [] + r.value == r.value;
    }
  }

  // Two results one after the other; an error in either is one of the whole.
  function Appended<T>(r: Result<seq<T>>, more: Result<seq<T>>): Result<seq<T>> {
    match more
    case Ok(rest) => (match r case Ok(out) => Ok(out + rest) case Err => Err)
    case Err => Err
  }

  lemma AppendedFirst<T>(x: T, r: Result<seq<T>>, more: Result<seq<T>>)
    ensures Appended(Prepended([x], r), more) == Prepended([x], Appended(r, more))
    ensures Appended(Ok([]), more) == more
  {
    if r.Ok? && more.Ok? { Regrouped([x], r.value, more.value); }
    if more.Ok? { assert [] + more.value == more.value; }
  }

  // Line by line, in order: an empty line gives nothing, and one that cannot be read spoils the whole.
  lemma {:induction false} ParseLineByLine(u: seq<string>, v: seq<string>)
    ensures ParseLines(u + v) == Appended(ParseLines(u), ParseLines(v))
    ensures u != [] && u[0] == "" ==> ParseLines(u) == ParseLines(u[1..])
  {
    if u == [] {
      assert u + v == v;
      AppendedFirst(BLANK, Ok([]), ParseLines(v));
    } else {
      assert (u + v)[1..] == u[1..] + v && (u + v)[0] == u[0];
      ParseLineByLine(u[1..], v);
      if u[0] != "" && EntryFromLine(u[0]).Ok? {
        AppendedFirst(EntryFromLine(u[0]).value, ParseLines(u[1..]), ParseLines(v));
      }
    }
  }

  // The same for a list of digests.
  lemma {:induction false} DigestByDigest(u: seq<string>, v: seq<string>)
    ensures Digests(u + v) == Appended(Digests(u), Digests(v))
    ensures u != [] && u[0] == "" ==> Digests(u) == Digests(u[1..])
  {
    if u == [] {
      assert u + v == v;
      AppendedFirst(ZERO_DIGEST, Ok([]), Digests(v));
    } else {
      assert (u + v)[1..] == u[1..] + v && (u + v)[0] == u[0];
      DigestByDigest(u[1..], v);
      if u[0] != "" && HexToDigest(u[0]).Ok? {
        AppendedFirst(HexToDigest(u[0]).value, Digests(u[1..]), Digests(v));
      }
    }
  }

  // hex_to_digest
  method ReadDigest(hex: string) returns (r: Result<Digest>)
    ensures r == HexToDigest(hex)
  {
    var d: Bytes, i := seq(32, k => 0), 0;
    PrependedOne(d[..0], 0, HexBytes(hex, 32));
    assert d[..0] == [] && hex[0..] == hex;
    while i < 32 && 2 * i + 1 < |hex|
      invariant 0 <= i <= 32 && 2 * i <= |hex| + 1 && |d| == 32
      invariant i > 0 ==> 2 * i <= |hex|
      invariant forall k | i <= k < 32 :: d[k] == 0
      invariant HexBytes(hex, 32) == Prepended(d[..i], HexBytes(hex[2 * i..], 32 - i))
    {
      var b := HexByte(hex[2 * i], hex[2 * i + 1]);
      ghost var rest := HexBytes(hex[2 * i..][2..], 32 - i - 1);
      assert hex[2 * i..][2..] == hex[2 * (i + 1)..];
      if b.Err? { return Err; }
      PrependedOne(d[..i], b.value, rest);
      d := d[i := b.value];
      assert d[..i + 1] == d[..i] + [b.value];
      i := i + 1;
    }
    if i < 32 {
      assert d == d[..i] + seq(32 - i, k => 0);
    } else {
      PrependedOne(d, 0, Ok([]));
    }
    r := Ok(d);
  }

  method ReadDigests(text: string, d: char) returns (r: Result<seq<Digest>>)
    ensures r == Digests(Split(text, d))
  {
    var hs := ReadFields(text, d);
    var hashes: seq<Digest>, i := [], 0;
    assert hs[0..] == hs;
    PrependedOne([], ZERO_DIGEST, Digests(hs));
    while i < |hs|
      invariant 0 <= i <= |hs|
      invariant Digests(hs) == Prepended(hashes, Digests(hs[i..]))
    {
      assert hs[i..][1..] == hs[i + 1..];
      if hs[i] != "" {
        var h := ReadDigest(hs[i]);
        if h.Err? { return Err; }
        PrependedOne(hashes, h.value, Digests(hs[i + 1..]));
        hashes := hashes + [h.value];
      }
      i := i + 1;
    }
    PrependedOne(hashes, ZERO_DIGEST, Ok([]));
    r := Ok(hashes);
  }

  method LineToEntry(line: string) returns (r: Result<FileEntry>)
    ensures r == EntryFromLine(line)
  {
    var fields := ReadFields(line, '\t');
    PaddedLength(fields);
    while |fields| < 7
      invariant Padded(fields) == Padded(Split(line, '\t'))
    {
      fields := fields + [""];
    }
    var size := if fields[2] == "" then Ok(0) else ParseU64(fields[2]);
    var root := ReadDigest(fields[3]);
    var clock := ClockFromWire(fields[4]);
    var hashes := ReadDigests(fields[6], ',');
    if size.Err? || root.Err? || clock.Err? || hashes.Err? { return Err; }
    r := Ok(FileEntry(fields[0], hashes.value, root.value, clock.value, fields[5], fields[1] == "1", size.value));
  }

  method SerializeManifest(nodeId: string, store: CrdtStore) returns (text: string)
    ensures text == ManifestText(nodeId, AllEntries(store.entries))
  {
    var body := JournalLines(store);
    text := nodeId + "\n" + body;
  }

  // One line per entry: also what save_journal writes.
  method JournalLines(store: CrdtStore) returns (text: string)
    ensures text == JournalText(AllEntries(store.entries))
  {
    var es := AllEntries(store.entries);
    text := "";
    var i := 0;
    while i < |es|
      invariant 0 <= i <= |es|
      invariant text == Terminated(Lines(es[..i]), '\n')
    {
      LinesSnoc(es, i);
      TerminatedSnoc(Lines(es[..i]), EntryLine(es[i]), '\n');
      var line := EntryToLine(es[i]);
      text := text + line + "\n";
      i := i + 1;
    }
    assert es[..i] == es;
  }

  lemma TailOfPrefix<T>(s: seq<T>, i: nat)
    requires 0 < i <= |s|
    ensures s[..i][0] == s[0] && s[..i][1..] == s[1..][..i - 1]
  {
  }

  lemma {:induction false} LinesSnoc(es: seq<FileEntry>, i: nat)
    requires i < |es|
    ensures Lines(es[..i + 1]) == Lines(es[..i]) + [EntryLine(es[i])]
  {
    if i > 0 {
      LinesSnoc(es[1..], i - 1);
      TailOfPrefix(es, i + 1);
      TailOfPrefix(es, i);
    }
  }

  method ParseManifest(payload: string) returns (r: Result<seq<FileEntry>>)
    ensures r == ParseManifestText(payload)
  {
    var iss := new StringReader(payload);
    var _, _ := iss.GetLine('\n');
    var out: seq<FileEntry> := [];
    PrependedOne([], BLANK, ParseManifestText(payload));
    while true
      invariant fresh(iss) && iss.Valid()
      invariant ParsedSoFar(payload, out, iss.Rest())
      decreases |iss.Rest()|
    {
      ghost var rest := iss.Rest();
      var ok, line := iss.GetLine('\n');
      if !ok { break; }
      ParseOneMore(payload, out, rest);
      if line != "" {
        var e := LineToEntry(line);
        if e.Err? { return Err; }
        out := out + [e.value];
      }
    }
    AllLinesParsed(payload, out);
    r := Ok(out);
  }

  ghost predicate ParsedSoFar(payload: string, out: seq<FileEntry>, rest: string) {
    ParseManifestText(payload) == Prepended(out, ParseLines(Split(rest, '\n')))
  }

  lemma AllLinesParsed(payload: string, out: seq<FileEntry>)
    requires ParsedSoFar(payload, out, "")
    ensures ParseManifestText(payload) == Ok(out)
  {
    PrependedOne(out, BLANK, Ok([]));
  }

  lemma ParseOneMore(payload: string, out: seq<FileEntry>, rest: string)
    requires ParsedSoFar(payload, out, rest) && rest != ""
    ensures var line, rest' := UpTo(rest, '\n'), Remainder(rest, '\n');
        if line == "" then ParsedSoFar(payload, out, rest')
        else match EntryFromLine(line)
          case Ok(e) => ParsedSoFar(payload, out + [e], rest')
          case Err => ParseManifestText(payload).Err?
  {
    var line, lines := UpTo(rest, '\n'), Split(Remainder(rest, '\n'), '\n');
    assert Split(rest, '\n')[1..] == lines;
    if line != "" && EntryFromLine(line).Ok? {
      PrependedOne(out, EntryFromLine(line).value, ParseLines(lines));
    }
  }

  method LoadJournal(text: string, store: CrdtStore) returns (ok: bool)
    modifies store
    ensures ok <==> ParseLines(Split(text, '\n')).Ok?
    ensures ok ==> store.entries == LoadAll(old(store.entries), ParseLines(Split(text, '\n')).value)
  {
    var lines := ReadFields(text, '\n');
    var i := 0;
    while i < |lines|
      invariant 0 <= i <= |lines|
      invariant ParseLines(lines).Ok? <==> ParseLines(lines[i..]).Ok?
      invariant ParseLines(lines[i..]).Ok? ==>
          LoadAll(old(store.entries), ParseLines(lines).value) == LoadAll(store.entries, ParseLines(lines[i..]).value)
    {
      assert lines[i..][1..] == lines[i + 1..];
      if lines[i] != "" {
        var e := LineToEntry(lines[i]);
        if e.Err? { return false; }
        store.LoadEntry(e.value);
      }
      i := i + 1;
    }
    ok := true;
  }
}
