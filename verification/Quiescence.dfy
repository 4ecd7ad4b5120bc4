// Two nodes that stop editing: after two complete sessions nothing is left to exchange.
module Quiescence {
  import opened Basics
  import opened VectorClocks
  import opened ConflictPaths
  import opened CrdtStores
  import opened MergeOrder
  import opened Replication
  import opened TwoNodes

  ghost function Entries(s: Store): set<FileEntry> {
    set p | p in s :: s[p]
  }

  // The metadata effect of one complete session: both manifests leave before either side merges, and
  // each side merges the other's entries in the order in which they are listed.
  ghost function Session(s: System, a: string, b: string, la: seq<FileEntry>, lb: seq<FileEntry>): System
    requires a in s.stores && b in s.stores
  {
    System(
      s.stores[a := MergeAll(s.stores[a], lb)][b := MergeAll(s.stores[b], la)],
      s.sent + Manifest(a, s.stores[a]) + Manifest(b, s.stores[b]))
  }

  ghost predicate Lists(s: System, a: string, b: string, la: seq<FileEntry>, lb: seq<FileEntry>) {
    a in s.stores && b in s.stores && Elems(la) == Entries(s.stores[a]) && Elems(lb) == Entries(s.stores[b])
  }

  // ---------- A session is a piece of a run ----------

  // A state that some run with edits on user paths only ends in.
  ghost predicate Reachable(nodes: set<string>, s: System) {
    exists acts :: Reaches(nodes, acts, s)
  }

  ghost predicate Reaches(nodes: set<string>, acts: seq<Action>, s: System) {
    IsRun(nodes, acts) && UserEdits(nodes, acts) && Final(nodes, acts) == s
  }

  lemma ReachableStep(nodes: set<string>, s: System, act: Action)
    requires Reachable(nodes, s) && TwoStep(s, nodes, act)
    ensures Reachable(nodes, Apply(s, act))
  {
    var acts :| Reaches(nodes, acts, s);
    assert (acts + [act])[..|acts|] == acts;
    assert Reaches(nodes, acts + [act], Apply(s, act));
  }

  lemma ReachableKeys(nodes: set<string>, s: System)
    requires Reachable(nodes, s)
    ensures s.stores.Keys == nodes
  {
    var acts :| Reaches(nodes, acts, s);
  }

  lemma ReachableTwoInv(nodes: set<string>, a: string, b: string, s: System)
    requires Pair(nodes, a, b) && Reachable(nodes, s)
    ensures TwoInv(s, nodes, a, b)
  {
    var acts :| Reaches(nodes, acts, s);
    TwoInvHolds(nodes, a, b, acts);
  }

  // What one side is after merging ms from the other, seen from inside the two-node invariant.
  ghost function Merging(s: System, i: string, ms: seq<FileEntry>): System
    requires i in s.stores
  {
    System(s.stores[i := MergeAll(s.stores[i], ms)], s.sent)
  }

  lemma {:induction false} ReachableMerging(nodes: set<string>, s: System, i: string, from: string, ms: seq<FileEntry>)
    requires Reachable(nodes, s) && i in s.stores
    requires forall m | m in ms :: Packet(from, m) in s.sent
    ensures Reachable(nodes, Merging(s, i, ms))
  {
    if ms == [] {
      MergingNothing(s, i);
    } else {
      assert ms[|ms| - 1] in ms;
      ReachableMerging(nodes, s, i, from, ms[..|ms| - 1]);
      MergingOneMore(s, i, from, ms);
      ReachableStep(nodes, Merging(s, i, ms[..|ms| - 1]), Deliver(i, Packet(from, ms[|ms| - 1])));
    }
  }

  lemma MergingNothing(s: System, i: string)
    requires i in s.stores
    ensures Merging(s, i, []) == s
  {
    assert s.stores[i := s.stores[i]] == s.stores;
  }

  lemma MergingOneMore(s: System, i: string, from: string, ms: seq<FileEntry>)
    requires i in s.stores && ms != []
    ensures Merging(s, i, ms) == Apply(Merging(s, i, ms[..|ms| - 1]), Deliver(i, Packet(from, ms[|ms| - 1])))
  {
  }

  lemma SessionReachable(nodes: set<string>, s: System, a: string, b: string, la: seq<FileEntry>, lb: seq<FileEntry>)
    requires a != b && Reachable(nodes, s) && Lists(s, a, b, la, lb)
    ensures Reachable(nodes, Session(s, a, b, la, lb))
  {
    ReachableStep(nodes, s, Send(a));
    ReachableStep(nodes, Apply(s, Send(a)), Send(b));
    SendBoth(s, a, b);
    var s2 := Apply(Apply(s, Send(a)), Send(b));
    ListedWereSent(s, s2, b, lb);
    ReachableMerging(nodes, s2, a, b, lb);
    ListedWereSent(s, s2, a, la);
    ReachableMerging(nodes, Merging(s2, a, lb), b, a, la);
    assert Merging(Merging(s2, a, lb), b, la) == Session(s, a, b, la, lb);
  }

  lemma SendBoth(s: System, a: string, b: string)
    requires a in s.stores && b in s.stores
    ensures Apply(Apply(s, Send(a)), Send(b))
        == System(s.stores, s.sent + Manifest(a, s.stores[a]) + Manifest(b, s.stores[b]))
  {
    assert s.stores[a := s.stores[a]] == s.stores && s.stores[b := s.stores[b]] == s.stores;
  }

  lemma ListedWereSent(s: System, t: System, i: string, ms: seq<FileEntry>)
    requires i in s.stores && Elems(ms) == Entries(s.stores[i]) && Manifest(i, s.stores[i]) <= t.sent
    ensures forall m | m in ms :: Packet(i, m) in t.sent
  {
    forall m | m in ms
      ensures Packet(i, m) in t.sent
    {
      assert m in Elems(ms);
      var p :| p in s.stores[i] && s.stores[i][p] == m;
      assert Packet(i, s.stores[i][p]) in Manifest(i, s.stores[i]);
    }
  }

  // ---------- The first session ----------

  lemma {:induction false} MergingKeepsTwoInv(s: System, nodes: set<string>, a: string, b: string, i: string, ms: seq<FileEntry>)
    requires TwoInv(s, nodes, a, b) && i in nodes
    requires forall m | m in ms :: Packet(Other(a, b, i), m) in s.sent
    ensures TwoInv(Merging(s, i, ms), nodes, a, b)
  {
    if ms == [] {
      MergingNothing(s, i);
    } else {
      var before, k := ms[..|ms| - 1], Packet(Other(a, b, i), ms[|ms| - 1]);
      assert ms[|ms| - 1] in ms && forall m | m in before :: m in ms;
      MergingKeepsTwoInv(s, nodes, a, b, i, before);
      MergingOneMore(s, i, Other(a, b, i), ms);
      StepKeepsTwoInv(Merging(s, i, before), nodes, a, b, Deliver(i, k));
    }
  }

  ghost predicate Below(s: Store, r: string, c: Clock) {
    r in s ==> Leq(s[r].clock, c)
  }

  ghost predicate AtLeast(s: Store, r: string, c: Clock) {
    r in s && Leq(c, s[r].clock)
  }

  lemma LowerBoundsStay(s: Store, t: Store)
    requires StoreGrows(s, t)
    ensures forall r, c | AtLeast(s, r, c) :: AtLeast(t, r, c)
  {
    forall r, c | AtLeast(s, r, c)
      ensures AtLeast(t, r, c)
    {
      if t[r] != s[r] { LeqTransitive(c, s[r].clock, t[r].clock); }
    }
  }

  // After merging, every path is at least as new as it was and as new as everything merged.
  lemma {:induction false} MergingLower(s: System, nodes: set<string>, a: string, b: string, i: string, ms: seq<FileEntry>)
    requires TwoInv(s, nodes, a, b) && i in nodes
    requires forall m | m in ms :: Packet(Other(a, b, i), m) in s.sent
    ensures forall r | r in s.stores[i] :: AtLeast(MergeAll(s.stores[i], ms), r, s.stores[i][r].clock)
    ensures forall m | m in ms :: AtLeast(MergeAll(s.stores[i], ms), m.path, m.clock)
  {
    if ms != [] {
      var before, m := ms[..|ms| - 1], ms[|ms| - 1];
      assert ms == before + [m];
      MergingLower(s, nodes, a, b, i, before);
      MergingKeepsTwoInv(s, nodes, a, b, i, before);
      var t := Merging(s, i, before);
      var mid := t.stores[i];
      DeliverGrows(t, nodes, a, b, i, Packet(Other(a, b, i), m));
      MergeMeaning(mid, m);
      LowerBoundsStay(mid, Merged(mid, m));
    }
  }

  // A node never forks to its own conflict path, so there it only ever holds what it was given.
  lemma {:induction false} MergingUpper(s: System, nodes: set<string>, a: string, b: string, i: string, ms: seq<FileEntry>,
                                        p: string, c: Clock)
    requires TwoInv(s, nodes, a, b) && i in nodes && UserPath(nodes, p)
    requires forall m | m in ms :: Packet(Other(a, b, i), m) in s.sent
    requires Below(s.stores[i], ConflictPath(p, i), c)
    requires forall m | m in ms && m.path == ConflictPath(p, i) :: Leq(m.clock, c)
    ensures Below(MergeAll(s.stores[i], ms), ConflictPath(p, i), c)
    ensures ConflictPath(p, i) in MergeAll(s.stores[i], ms) ==>
        ConflictPath(p, i) in s.stores[i] || exists m | m in ms :: m.path == ConflictPath(p, i)
  {
    if ms != [] {
      var before, m := ms[..|ms| - 1], ms[|ms| - 1];
      assert ms == before + [m];
      MergingUpper(s, nodes, a, b, i, before, p, c);
      MergingKeepsTwoInv(s, nodes, a, b, i, before);
      var t := Merging(s, i, before);
      MergeMeaning(t.stores[i], m);
      if Verdict(t.stores[i], m).ConflictForked? {
        ConflictFacts(t, nodes, a, b, i, Packet(Other(a, b, i), m));
        if ForkOf(m).path == ConflictPath(p, i) { ConflictPathInjective(m.path, m.lastWriter, p, i); }
      }
    }
  }

  // After one session: the nodes agree on the clock of every user path, and the rival of each writer
  // holds the newest copy of that writer's conflicting version.
  ghost predicate HalfSettled(s: System, nodes: set<string>, a: string, b: string)
    requires s.stores.Keys == nodes == {a, b}
  {
    && (forall p, i | UserPath(nodes, p) && i in nodes && p in s.stores[i] :: AgreedAt(s, a, b, p, i))
    && (forall p, w {:trigger RivalNewest(s, a, b, p, w)} | UserPath(nodes, p) && w in nodes :: RivalNewest(s, a, b, p, w))
  }

  ghost predicate AgreedAt(s: System, a: string, b: string, p: string, i: string)
    requires s.stores.Keys == {a, b} && i in s.stores && p in s.stores[i]
  {
    var j := Other(a, b, i);
    p in s.stores[j] && Same(s.stores[i][p].clock, s.stores[j][p].clock)
  }

  ghost predicate RivalNewest(s: System, a: string, b: string, p: string, w: string)
    requires s.stores.Keys == {a, b} && w in s.stores
  {
    var q := ConflictPath(p, w);
    q in s.stores[w] ==> AtLeast(s.stores[Other(a, b, w)], q, s.stores[w][q].clock)
  }

  lemma ListedEntry(s: Store, ms: seq<FileEntry>)
    requires Keyed(s) && Elems(ms) == Entries(s)
    ensures forall p | p in s :: s[p] in ms
    ensures forall m | m in ms :: m.path in s && m == s[m.path]
  {
    forall p | p in s ensures s[p] in ms { assert s[p] in Elems(ms); }
    forall m | m in ms ensures m.path in s && m == s[m.path] { assert m in Elems(ms); }
  }

  lemma UserPathNeverForkedTo(nodes: set<string>, s: Store, ms: seq<FileEntry>, p: string)
    requires UserPath(nodes, p) && Keyed(s) && Elems(ms) == Entries(s)
    requires forall r | r in s :: s[r].lastWriter in nodes
    ensures NeverForkedTo(ms, p)
  {
    ListedEntry(s, ms);
  }

  // One direction of the agreement on a user path.
  lemma AgreementHalf(nodes: set<string>, x: Store, y: Store, lx: seq<FileEntry>, ly: seq<FileEntry>, p: string)
    requires UserPath(nodes, p) && Keyed(x) && Keyed(y) && Elems(lx) == Entries(x) && Elems(ly) == Entries(y)
    requires forall r | r in x :: x[r].lastWriter in nodes
    requires forall r | r in y :: y[r].lastWriter in nodes
    ensures p in MergeAll(x, ly) <==> p in MergeAll(y, lx)
    ensures Leq(ClockAt(MergeAll(x, ly), p), ClockAt(MergeAll(y, lx), p))
  {
    UserPathNeverForkedTo(nodes, x, lx, p);
    UserPathNeverForkedTo(nodes, y, ly, p);
    ListedEntry(x, lx);
    ListedEntry(y, ly);
    MergedDomain(x, ly, p);
    MergedDomain(y, lx, p);
    MergedClockIsLub(x, ly, p);
    MergedClockIsLub(y, lx, p);
    var d := ClockAt(MergeAll(y, lx), p);
    assert Leq(ClockAt(x, p), d);
    assert forall m | m in ly && m.path == p :: m.clock == ClockAt(y, p);
  }

  lemma RivalAfterSession(s: System, nodes: set<string>, a: string, b: string, lw: seq<FileEntry>, lj: seq<FileEntry>,
                          p: string, w: string)
    requires TwoInv(s, nodes, a, b) && UserPath(nodes, p) && w in nodes
    requires var j := Other(a, b, w);
        && Elems(lw) == Entries(s.stores[w]) && Elems(lj) == Entries(s.stores[j])
        && (forall m | m in lw :: Packet(w, m) in s.sent) && (forall m | m in lj :: Packet(j, m) in s.sent)
    ensures var q, mine := ConflictPath(p, w), MergeAll(s.stores[w], lj);
        q in mine ==> AtLeast(MergeAll(s.stores[Other(a, b, w)], lw), q, mine[q].clock)
  {
    var j, q := Other(a, b, w), ConflictPath(p, w);
    ListedEntry(s.stores[w], lw);
    ListedEntry(s.stores[j], lj);
    MergingLower(s, nodes, a, b, j, lw);
    var theirs := MergeAll(s.stores[j], lw);
    if q in theirs {
      MergingUpper(s, nodes, a, b, w, lj, p, theirs[q].clock);
    } else {
      assert q !in s.stores[w] && q !in s.stores[j];
      MergingUpper(s, nodes, a, b, w, lj, p, map[]);
    }
  }

  // Both manifests are on their way.
  lemma BothSent(nodes: set<string>, s: System, a: string, b: string, la: seq<FileEntry>, lb: seq<FileEntry>)
      returns (s2: System)
    requires Pair(nodes, a, b) && Reachable(nodes, s) && Lists(s, a, b, la, lb)
    ensures s2 == System(s.stores, s.sent + Manifest(a, s.stores[a]) + Manifest(b, s.stores[b]))
    ensures TwoInv(s2, nodes, a, b)
    ensures (forall m | m in la :: Packet(a, m) in s2.sent) && (forall m | m in lb :: Packet(b, m) in s2.sent)
  {
    ReachableStep(nodes, s, Send(a));
    ReachableStep(nodes, Apply(s, Send(a)), Send(b));
    SendBoth(s, a, b);
    s2 := Apply(Apply(s, Send(a)), Send(b));
    ReachableTwoInv(nodes, a, b, s2);
    ListedWereSent(s, s2, a, la);
    ListedWereSent(s, s2, b, lb);
  }

  lemma AgreesAfterSession(nodes: set<string>, s: System, a: string, b: string, la: seq<FileEntry>, lb: seq<FileEntry>,
                           p: string, i: string)
    requires Pair(nodes, a, b) && WellFormed(s, nodes) && Lists(s, a, b, la, lb) && UserPath(nodes, p) && i in nodes
    requires p in Session(s, a, b, la, lb).stores[i]
    ensures AgreedAt(Session(s, a, b, la, lb), a, b, p, i)
  {
    AgreementHalf(nodes, s.stores[a], s.stores[b], la, lb, p);
    AgreementHalf(nodes, s.stores[b], s.stores[a], lb, la, p);
  }

  lemma FirstSession(nodes: set<string>, s: System, a: string, b: string, la: seq<FileEntry>, lb: seq<FileEntry>)
    requires Pair(nodes, a, b) && Reachable(nodes, s) && Lists(s, a, b, la, lb)
    ensures Session(s, a, b, la, lb).stores.Keys == nodes
    ensures HalfSettled(Session(s, a, b, la, lb), nodes, a, b)
  {
    ReachableKeys(nodes, s);
    var s2 := BothSent(nodes, s, a, b, la, lb);
    var t := Session(s, a, b, la, lb);
    forall p, i | UserPath(nodes, p) && i in nodes && p in t.stores[i]
      ensures AgreedAt(t, a, b, p, i)
    {
      AgreesAfterSession(nodes, s, a, b, la, lb, p, i);
    }
    forall p, w | UserPath(nodes, p) && w in nodes
      ensures RivalNewest(t, a, b, p, w)
    {
      RivalNewestAfterSession(s2, s, nodes, a, b, la, lb, p, w);
    }
  }

  lemma RivalNewestAfterSession(s2: System, s: System, nodes: set<string>, a: string, b: string, la: seq<FileEntry>,
                                lb: seq<FileEntry>, p: string, w: string)
    requires TwoInv(s2, nodes, a, b) && s2.stores == s.stores && Lists(s, a, b, la, lb) && UserPath(nodes, p) && w in nodes
    requires (forall m | m in la :: Packet(a, m) in s2.sent) && (forall m | m in lb :: Packet(b, m) in s2.sent)
    ensures RivalNewest(Session(s, a, b, la, lb), a, b, p, w)
  {
    if w == a {
      RivalAfterSession(s2, nodes, a, b, la, lb, p, a);
    } else {
      RivalAfterSession(s2, nodes, a, b, lb, la, p, b);
    }
  }

  // ---------- The second session ----------

  // Entry by entry, the newer of the two stores; x wins ties.
  ghost function NewerOf(x: Store, y: Store): Store {
    map r | r in x.Keys + y.Keys :: if r in x && (r in y ==> Leq(y[r].clock, x[r].clock)) then x[r] else y[r]
  }

  // x after the entries in done have been merged into it.
  ghost predicate Overlaid(t: Store, x: Store, y: Store, done: set<FileEntry>) {
    forall r :: OverlaidAt(t, x, y, done, r)
  }

  ghost predicate OverlaidAt(t: Store, x: Store, y: Store, done: set<FileEntry>, r: string) {
    if r in y && y[r] in done then r in t && t[r] == NewerOf(x, y)[r]
    else (r in t <==> r in x) && (r in x ==> t[r] == x[r])
  }

  lemma {:induction false} MergeComparable(x: Store, y: Store, ms: seq<FileEntry>)
    requires Keyed(x) && Keyed(y) && Elems(ms) <= Entries(y)
    requires forall r | r in x && r in y :: Comparable(x[r].clock, y[r].clock)
    ensures Overlaid(MergeAll(x, ms), x, y, Elems(ms))
  {
    if ms != [] {
      var before, m := ms[..|ms| - 1], ms[|ms| - 1];
      ElemsSplit(ms);
      MergeComparable(x, y, before);
      assert m in Entries(y);
      MergeOneComparable(MergeAll(x, before), x, y, Elems(before), m);
    }
  }

  lemma MergeOneComparable(t: Store, x: Store, y: Store, done: set<FileEntry>, m: FileEntry)
    requires Keyed(x) && Keyed(y) && m.path in y && m == y[m.path] && Overlaid(t, x, y, done)
    requires m.path in x ==> Comparable(x[m.path].clock, m.clock)
    ensures Overlaid(Merged(t, m), x, y, done + {m})
  {
    assert OverlaidAt(t, x, y, done, m.path);
    assert m.path in t ==> Comparable(t[m.path].clock, m.clock);
    assert Merged(t, m) == if m.path in t && Leq(m.clock, t[m.path].clock) then t else t[m.path := m];
    forall r
      ensures OverlaidAt(Merged(t, m), x, y, done + {m}, r)
    {
      assert OverlaidAt(t, x, y, done, r);
    }
  }

  lemma MergeAllComparable(x: Store, y: Store, ms: seq<FileEntry>)
    requires Keyed(x) && Keyed(y) && Elems(ms) == Entries(y)
    requires forall r | r in x && r in y :: Comparable(x[r].clock, y[r].clock)
    ensures MergeAll(x, ms) == NewerOf(x, y)
  {
    MergeComparable(x, y, ms);
    var t := MergeAll(x, ms);
    forall r
      ensures r in t <==> r in NewerOf(x, y)
      ensures r in t ==> t[r] == NewerOf(x, y)[r]
    {
      assert OverlaidAt(t, x, y, Elems(ms), r);
      assert r in y ==> y[r] in Entries(y);
    }
  }

  lemma SettledComparable(s: System, nodes: set<string>, a: string, b: string, r: string)
    requires TwoInv(s, nodes, a, b) && HalfSettled(s, nodes, a, b)
    requires r in s.stores[a] && r in s.stores[b]
    ensures Chained(s.stores[a][r], s.stores[b][r]) || UserPath(nodes, r)
    ensures Comparable(s.stores[a][r].clock, s.stores[b][r].clock)
  {
    if UserPath(nodes, r) {
      assert AgreedAt(s, a, b, r, a);
    } else {
      assert KnownPath(nodes, r);
      var p, w :| UserPath(nodes, p) && w in nodes && ConflictPath(p, w) == r;
      CopiesComparable(s, p, w, Other(a, b, w), s.stores[a][r], s.stores[b][r]);
    }
  }

  // Nothing left to exchange: the same paths, the same clocks, identical conflict copies.
  ghost predicate Settled(s: System, nodes: set<string>, a: string, b: string)
    requires a in s.stores && b in s.stores
  {
    && s.stores[a].Keys == s.stores[b].Keys
    && (forall r | r in s.stores[a] :: Same(s.stores[a][r].clock, s.stores[b][r].clock))
    && (forall r | r in s.stores[a] && !UserPath(nodes, r) :: s.stores[a][r] == s.stores[b][r])
  }

  // The second session at one path that both sides know afterwards.
  lemma SecondSessionAt(s: System, nodes: set<string>, a: string, b: string, r: string)
    requires TwoInv(s, nodes, a, b) && HalfSettled(s, nodes, a, b)
    requires r in s.stores[a] || r in s.stores[b]
    ensures var x, y := NewerOf(s.stores[a], s.stores[b])[r], NewerOf(s.stores[b], s.stores[a])[r];
        Same(x.clock, y.clock) && (!UserPath(nodes, r) ==> x == y)
  {
    if r in s.stores[a] && r in s.stores[b] {
      SettledComparable(s, nodes, a, b, r);
    } else if UserPath(nodes, r) {
      assert r in s.stores[a] ==> AgreedAt(s, a, b, r, a);
      assert r in s.stores[b] ==> AgreedAt(s, a, b, r, b);
    }
  }

  lemma SecondSession(nodes: set<string>, s: System, a: string, b: string, la: seq<FileEntry>, lb: seq<FileEntry>)
    requires Pair(nodes, a, b) && TwoInv(s, nodes, a, b) && HalfSettled(s, nodes, a, b) && Lists(s, a, b, la, lb)
    ensures Settled(Session(s, a, b, la, lb), nodes, a, b)
  {
    var x, y := s.stores[a], s.stores[b];
    forall r | r in x && r in y
      ensures Comparable(x[r].clock, y[r].clock)
    {
      SettledComparable(s, nodes, a, b, r);
    }
    MergeAllComparable(x, y, lb);
    MergeAllComparable(y, x, la);
    forall r | r in x.Keys + y.Keys
      ensures Same(NewerOf(x, y)[r].clock, NewerOf(y, x)[r].clock)
      ensures !UserPath(nodes, r) ==> NewerOf(x, y)[r] == NewerOf(y, x)[r]
    {
      SecondSessionAt(s, nodes, a, b, r);
    }
  }

  // From any state of any two-node run, two complete sessions with no edit in between reach a fixed
  // point, whatever the order of the manifests: both nodes know the same paths with the same clocks and
  // identical conflict copies, a third session reports nothing but NO_CHANGE, and it changes nothing.
  lemma TwoSessionsSettle(nodes: set<string>, s: System, a: string, b: string,
                          la: seq<FileEntry>, lb: seq<FileEntry>, la1: seq<FileEntry>, lb1: seq<FileEntry>,
                          la2: seq<FileEntry>, lb2: seq<FileEntry>)
    requires Pair(nodes, a, b) && Reachable(nodes, s) && Lists(s, a, b, la, lb)
    requires Lists(Session(s, a, b, la, lb), a, b, la1, lb1)
    requires Lists(Session(Session(s, a, b, la, lb), a, b, la1, lb1), a, b, la2, lb2)
    ensures var s2 := Session(Session(s, a, b, la, lb), a, b, la1, lb1);
        && Settled(s2, nodes, a, b)
        && (forall m | m in lb2 :: Verdict(s2.stores[a], m).NoChange?)
        && (forall m | m in la2 :: Verdict(s2.stores[b], m).NoChange?)
        && Session(s2, a, b, la2, lb2).stores == s2.stores
  {
    TwoSessions(nodes, s, a, b, la, lb, la1, lb1);
    QuietSession(Session(Session(s, a, b, la, lb), a, b, la1, lb1), nodes, a, b, la2, lb2);
  }

  lemma TwoSessions(nodes: set<string>, s: System, a: string, b: string,
                    la: seq<FileEntry>, lb: seq<FileEntry>, la1: seq<FileEntry>, lb1: seq<FileEntry>)
    requires Pair(nodes, a, b) && Reachable(nodes, s) && Lists(s, a, b, la, lb)
    requires Lists(Session(s, a, b, la, lb), a, b, la1, lb1)
    ensures Settled(Session(Session(s, a, b, la, lb), a, b, la1, lb1), nodes, a, b)
    ensures WellFormed(Session(Session(s, a, b, la, lb), a, b, la1, lb1), nodes)
  {
    var s1 := Session(s, a, b, la, lb);
    FirstSession(nodes, s, a, b, la, lb);
    SessionReachable(nodes, s, a, b, la, lb);
    ReachableTwoInv(nodes, a, b, s1);
    SecondSession(nodes, s1, a, b, la1, lb1);
    SessionReachable(nodes, s1, a, b, la1, lb1);
    ReachableTwoInv(nodes, a, b, Session(s1, a, b, la1, lb1));
  }

  lemma QuietSession(s: System, nodes: set<string>, a: string, b: string, la: seq<FileEntry>, lb: seq<FileEntry>)
    requires Pair(nodes, a, b) && WellFormed(s, nodes) && Settled(s, nodes, a, b) && Lists(s, a, b, la, lb)
    ensures forall m | m in lb :: Verdict(s.stores[a], m).NoChange?
    ensures forall m | m in la :: Verdict(s.stores[b], m).NoChange?
    ensures Session(s, a, b, la, lb).stores == s.stores
  {
    ThirdSession(s.stores[a], s.stores[b], lb);
    ThirdSession(s.stores[b], s.stores[a], la);
    assert s.stores[a := s.stores[a]][b := s.stores[b]] == s.stores;
  }

  lemma ThirdSession(x: Store, y: Store, ms: seq<FileEntry>)
    requires Keyed(x) && Keyed(y) && Elems(ms) == Entries(y) && x.Keys == y.Keys
    requires forall r | r in x :: Same(x[r].clock, y[r].clock)
    ensures forall m | m in ms :: Verdict(x, m).NoChange?
    ensures MergeAll(x, ms) == x
  {
    ListedEntry(y, ms);
    MergeAllComparable(x, y, ms);
    assert NewerOf(x, y) == x;
  }

  // ---------- What a session makes of a conflict ----------

  // mine[p] and m are concurrent: the local version stays, the remote one is kept beside it once merged.
  ghost predicate BothKept(mine: Store, t: Store, m: FileEntry, arrived: bool)
    requires m.path in mine
  {
    && m.path in t && SameVersion(t[m.path], mine[m.path])
    && Same(t[m.path].clock, if arrived then Join(mine[m.path].clock, m.clock) else mine[m.path].clock)
    && (arrived ==> ForkOf(m).path in t && t[ForkOf(m).path] == ForkOf(m))
  }

  lemma {:induction false} MergingKeepsBoth(s: System, nodes: set<string>, a: string, b: string, i: string,
                                            ms: seq<FileEntry>, m: FileEntry)
    requires TwoInv(s, nodes, a, b) && i in nodes && UserPath(nodes, m.path)
    requires forall x | x in ms :: Packet(Other(a, b, i), x) in s.sent && (x.path == m.path ==> x == m)
    requires Packet(Other(a, b, i), m) in s.sent
    requires m.path in s.stores[i] && !Comparable(s.stores[i][m.path].clock, m.clock)
    ensures BothKept(s.stores[i], MergeAll(s.stores[i], ms), m, m in ms)
  {
    var mine := s.stores[i];
    if ms != [] {
      var before, x := ms[..|ms| - 1], ms[|ms| - 1];
      assert ms == before + [x];
      MergingKeepsBoth(s, nodes, a, b, i, before, m);
      if x == m {
        MergeConflictOnce(mine, MergeAll(mine, before), m, m in before);
      } else {
        OtherEntryMerged(s, nodes, a, b, i, before, m, x);
      }
    }
  }

  lemma OtherEntryMerged(s: System, nodes: set<string>, a: string, b: string, i: string, before: seq<FileEntry>,
                         m: FileEntry, x: FileEntry)
    requires TwoInv(s, nodes, a, b) && i in nodes && UserPath(nodes, m.path) && x.path != m.path
    requires forall y | y in before :: Packet(Other(a, b, i), y) in s.sent
    requires Packet(Other(a, b, i), m) in s.sent && Packet(Other(a, b, i), x) in s.sent
    requires m.path in s.stores[i] && !Comparable(s.stores[i][m.path].clock, m.clock)
    requires BothKept(s.stores[i], MergeAll(s.stores[i], before), m, m in before)
    ensures BothKept(s.stores[i], Merged(MergeAll(s.stores[i], before), x), m, m in before)
  {
    MergingKeepsTwoInv(s, nodes, a, b, i, before);
    ConflictFacts(s, nodes, a, b, i, Packet(Other(a, b, i), m));
    OthersLeaveConflict(s, Merging(s, i, before), nodes, a, b, i, m, x, m in before);
  }

  lemma MergeConflictOnce(mine: Store, t: Store, m: FileEntry, arrived: bool)
    requires m.path in mine && BothKept(mine, t, m, arrived) && !Comparable(mine[m.path].clock, m.clock)
    ensures BothKept(mine, Merged(t, m), m, true)
  {
    var c := mine[m.path].clock;
    JoinIsLub(c, m.clock);
    ConflictPathLonger(m.path, m.lastWriter);
    if arrived {
      LeqTransitive(m.clock, Join(c, m.clock), t[m.path].clock);
    } else {
      var d := t[m.path].clock;
      if Leq(m.clock, d) { LeqTransitive(m.clock, d, c); }
      if Leq(d, m.clock) { LeqTransitive(c, d, m.clock); }
      JoinIsLub(d, m.clock);
    }
  }

  // No other entry of the same manifest touches the two versions.
  lemma OthersLeaveConflict(s: System, t: System, nodes: set<string>, a: string, b: string, i: string,
                            m: FileEntry, x: FileEntry, arrived: bool)
    requires TwoInv(s, nodes, a, b) && TwoInv(t, nodes, a, b) && i in nodes && t.sent == s.sent && UserPath(nodes, m.path)
    requires var j := Other(a, b, i);
        Packet(j, m) in s.sent && Packet(j, x) in s.sent && m.lastWriter == j && x.path != m.path
    requires m.path in s.stores[i] && !Comparable(s.stores[i][m.path].clock, m.clock)
    requires BothKept(s.stores[i], t.stores[i], m, arrived)
    ensures BothKept(s.stores[i], Merged(t.stores[i], x), m, arrived)
  {
    var j := Other(a, b, i);
    if Verdict(t.stores[i], x).ConflictForked? {
      ConflictFacts(t, nodes, a, b, i, Packet(j, x));
      ForksApart(nodes, m, x, j);
    }
    if x.path == ForkOf(m).path { SentCopyIsOlder(s, nodes, a, b, i, m, x); }
    MergeElsewhere(s.stores[i], t.stores[i], m, x, arrived);
  }

  lemma ForksApart(nodes: set<string>, m: FileEntry, x: FileEntry, j: string)
    requires UserPath(nodes, m.path) && j in nodes && DotFree(j) && m.lastWriter == j && x.lastWriter == j && x.path != m.path
    ensures ForkOf(x).path != ForkOf(m).path && ForkOf(x).path != m.path
  {
    if ForkOf(x).path == ForkOf(m).path { ConflictPathInjective(x.path, j, m.path, j); }
  }

  lemma MergeElsewhere(mine: Store, t: Store, m: FileEntry, x: FileEntry, arrived: bool)
    requires Keyed(t) && m.path in mine && BothKept(mine, t, m, arrived) && x.path != m.path
    requires Verdict(t, x).ConflictForked? ==> ForkOf(x).path != m.path && ForkOf(x).path != ForkOf(m).path && x.path != ForkOf(m).path
    requires x.path == ForkOf(m).path ==> Older(x, m)
    ensures BothKept(mine, Merged(t, x), m, arrived)
  {
    MergeMeaning(t, x);
  }

  // Any copy sent before the conflict is a copy of an earlier version.
  lemma SentCopyIsOlder(s: System, nodes: set<string>, a: string, b: string, i: string, m: FileEntry, x: FileEntry)
    requires TwoInv(s, nodes, a, b) && i in nodes && UserPath(nodes, m.path)
    requires var j := Other(a, b, i); Packet(j, m) in s.sent && Packet(j, x) in s.sent && m.lastWriter == j
    requires m.path in s.stores[i] && !Comparable(s.stores[i][m.path].clock, m.clock)
    requires x.path == ForkOf(m).path
    ensures Older(x, m)
  {
    var j := Other(a, b, i);
    assert CopyOf(s, m.path, j, Other(a, b, j), Packet(j, x).entry);
    assert Chained(Packet(j, x.(path := m.path)).entry, Packet(j, m).entry);
    if Leq(m.clock, x.clock) { LeqTransitive(m.clock, x.clock, s.stores[i][m.path].clock); }
  }

  ghost predicate InConflict(s: System, a: string, b: string, p: string)
    requires a in s.stores && b in s.stores
  {
    p in s.stores[a] && p in s.stores[b] && !Comparable(s.stores[a][p].clock, s.stores[b][p].clock)
  }

  // After the session that meets a conflict, each node still has its own version in place and a
  // byte-for-byte copy of the other's at that node's conflict path; only a second session can spread
  // the copies, so this one never leaves the nodes settled.
  lemma ConflictSession(nodes: set<string>, s: System, a: string, b: string, la: seq<FileEntry>, lb: seq<FileEntry>, p: string)
    requires Pair(nodes, a, b) && Reachable(nodes, s) && Lists(s, a, b, la, lb)
    requires a in s.stores && b in s.stores && UserPath(nodes, p) && InConflict(s, a, b, p)
    ensures var A, B, t := s.stores[a], s.stores[b], Session(s, a, b, la, lb);
        && p in t.stores[a] && SameVersion(t.stores[a][p], A[p])
        && p in t.stores[b] && SameVersion(t.stores[b][p], B[p])
        && ConflictPath(p, b) in t.stores[a] && t.stores[a][ConflictPath(p, b)] == ForkOf(B[p])
        && ConflictPath(p, a) in t.stores[b] && t.stores[b][ConflictPath(p, a)] == ForkOf(A[p])
        && !Settled(t, nodes, a, b)
  {
    var s2 := BothSent(nodes, s, a, b, la, lb);
    ConflictBothSides(s2, nodes, a, b, la, lb, p);
    CopyStillMissing(nodes, Session(s, a, b, la, lb), a, b, ConflictPath(p, b), s.stores[b][p].clock);
  }

  lemma ConflictBothSides(s: System, nodes: set<string>, a: string, b: string, la: seq<FileEntry>, lb: seq<FileEntry>, p: string)
    requires TwoInv(s, nodes, a, b) && UserPath(nodes, p) && InConflict(s, a, b, p) && Lists(s, a, b, la, lb)
    requires (forall m | m in la :: Packet(a, m) in s.sent) && (forall m | m in lb :: Packet(b, m) in s.sent)
    ensures var A, B, s', t' := s.stores[a], s.stores[b], MergeAll(s.stores[a], lb), MergeAll(s.stores[b], la);
        && p in s' && SameVersion(s'[p], A[p]) && p in t' && SameVersion(t'[p], B[p])
        && ConflictPath(p, b) in s' && s'[ConflictPath(p, b)] == ForkOf(B[p])
        && ConflictPath(p, a) in t' && t'[ConflictPath(p, a)] == ForkOf(A[p])
        && (ConflictPath(p, b) in t' ==> !Leq(B[p].clock, t'[ConflictPath(p, b)].clock))
  {
    ConflictOneSide(s, nodes, a, b, a, lb, p);
    ConflictOneSide(s, nodes, a, b, b, la, p);
    WriterLacksCopy(s, nodes, a, b, la, p);
  }

  lemma CopyStillMissing(nodes: set<string>, t: System, a: string, b: string, q: string, c: Clock)
    requires a in t.stores && b in t.stores && q in t.stores[a] && t.stores[a][q].clock == c
    requires q in t.stores[b] ==> !Leq(c, t.stores[b][q].clock)
    ensures !Settled(t, nodes, a, b)
  {
  }

  lemma ConflictOneSide(s: System, nodes: set<string>, a: string, b: string, i: string, ms: seq<FileEntry>, p: string)
    requires TwoInv(s, nodes, a, b) && i in nodes && UserPath(nodes, p) && InConflict(s, a, b, p)
    requires Elems(ms) == Entries(s.stores[Other(a, b, i)])
    requires forall x | x in ms :: Packet(Other(a, b, i), x) in s.sent
    ensures var m, t := s.stores[Other(a, b, i)][p], MergeAll(s.stores[i], ms);
        && BothKept(s.stores[i], t, m, true)
        && m.lastWriter == Other(a, b, i)
  {
    var j := Other(a, b, i);
    var m := s.stores[j][p];
    ListedEntry(s.stores[j], ms);
    MergingKeepsBoth(s, nodes, a, b, i, ms, m);
    ConflictFacts(s, nodes, a, b, i, Packet(j, m));
  }

  // The writer of a conflicting version does not yet hold the copy that its rival just made.
  lemma WriterLacksCopy(s: System, nodes: set<string>, a: string, b: string, la: seq<FileEntry>, p: string)
    requires TwoInv(s, nodes, a, b) && UserPath(nodes, p) && InConflict(s, a, b, p)
    requires Elems(la) == Entries(s.stores[a]) && forall x | x in la :: Packet(a, x) in s.sent
    ensures var q, t := ConflictPath(p, b), MergeAll(s.stores[b], la);
        q in t ==> !Leq(s.stores[b][p].clock, t[q].clock)
  {
    var q, c := ConflictPath(p, b), s.stores[a][p].clock;
    ListedEntry(s.stores[a], la);
    if q in s.stores[b] { assert CopyOf(s, p, b, Other(a, b, b), s.stores[b][ConflictPath(p, b)]); }
    if q in s.stores[a] { assert CopyOf(s, p, b, Other(a, b, b), s.stores[a][ConflictPath(p, b)]); }
    MergingUpper(s, nodes, a, b, b, la, p, c);
    var t := MergeAll(s.stores[b], la);
    if q in t && Leq(s.stores[b][p].clock, t[q].clock) { LeqTransitive(s.stores[b][p].clock, t[q].clock, c); }
  }
}
