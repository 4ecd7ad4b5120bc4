// What crdt_store.hpp promises about merge order, and how much of it merge_remote delivers.
module MergeOrder {
  import opened Basics
  import opened VectorClocks
  import opened ConflictPaths
  import opened CrdtStores

  ghost function MergeAll(s: Store, ms: seq<FileEntry>): Store {
    if ms == [] then s else Merged(MergeAll(s, ms[..|ms| - 1]), ms[|ms| - 1])
  }

  ghost function Elems(ms: seq<FileEntry>): set<FileEntry> {
    set m | m in ms
  }

  lemma ElemsSplit(ms: seq<FileEntry>)
    requires ms != []
    ensures Elems(ms) == Elems(ms[..|ms| - 1]) + {ms[|ms| - 1]}
  {
    assert ms == ms[..|ms| - 1] + [ms[|ms| - 1]];
  }

  ghost predicate NeverForkedTo(ms: seq<FileEntry>, path: string) {
    forall m | m in ms :: ForkOf(m).path != path
  }

  // c is the least clock above start and above every version of path in ms.
  ghost predicate IsLub(c: Clock, start: Clock, ms: seq<FileEntry>, path: string) {
    && Leq(start, c)
    && (forall m | m in ms && m.path == path :: Leq(m.clock, c))
    && forall d :: Leq(start, d) && (forall m | m in ms && m.path == path :: Leq(m.clock, d)) ==> Leq(c, d)
  }

  lemma {:induction false} MergeAllKeyed(s: Store, ms: seq<FileEntry>)
    requires Keyed(s)
    ensures Keyed(MergeAll(s, ms))
  {
    if ms != [] {
      MergeAllKeyed(s, ms[..|ms| - 1]);
      MergeMeaning(MergeAll(s, ms[..|ms| - 1]), ms[|ms| - 1]);
    }
  }

  lemma {:induction false} MergedClockIsLub(s: Store, ms: seq<FileEntry>, path: string)
    requires Keyed(s) && NeverForkedTo(ms, path)
    ensures IsLub(ClockAt(MergeAll(s, ms), path), ClockAt(s, path), ms, path)
  {
    if ms != [] {
      var before, m := ms[..|ms| - 1], ms[|ms| - 1];
      assert ms == before + [m];
      MergedClockIsLub(s, before, path);
      MergeAllKeyed(s, before);
      var t := MergeAll(s, before);
      MergeMeaning(t, m);
      var c, d := ClockAt(t, path), ClockAt(Merged(t, m), path);
      JoinIsLub(c, m.clock);
      if m.path == path {
        assert Same(d, Join(c, m.clock));
        LeqTransitive(ClockAt(s, path), c, d);
        forall x | x in ms && x.path == path
          ensures Leq(x.clock, d)
        {
          if x in before { LeqTransitive(x.clock, c, d); }
        }
        forall e | Leq(ClockAt(s, path), e) && (forall x | x in ms && x.path == path :: Leq(x.clock, e))
          ensures Leq(d, e)
        {
          assert Leq(c, e) && Leq(m.clock, e);
          LeqTransitive(d, Join(c, m.clock), e);
        }
      }
    }
  }

  lemma {:induction false} MergedDomain(s: Store, ms: seq<FileEntry>, path: string)
    requires NeverForkedTo(ms, path)
    ensures path in MergeAll(s, ms) <==> path in s || exists m | m in ms :: m.path == path
  {
    if ms != [] {
      var before, m := ms[..|ms| - 1], ms[|ms| - 1];
      assert ms == before + [m];
      MergedDomain(s, before, path);
    }
  }

  // Any order and any repetition of the same versions gives the same clock, conflicts or not.
  lemma MergeOrderFixesClock(s: Store, ms: seq<FileEntry>, ns: seq<FileEntry>, path: string)
    requires Keyed(s) && NeverForkedTo(ms, path) && NeverForkedTo(ns, path)
    requires forall m :: m in ms <==> m in ns
    ensures Same(ClockAt(MergeAll(s, ms), path), ClockAt(MergeAll(s, ns), path))
  {
    MergedClockIsLub(s, ms, path);
    MergedClockIsLub(s, ns, path);
  }

  // Versions of one path are causally ordered, and a clock identifies its version.
  ghost predicate Linear(vs: set<FileEntry>) {
    forall m, n | m in vs && n in vs && m.path == n.path :: Chained(m, n)
  }

  // s holds exactly the newest version of every path in vs.
  ghost predicate HoldsNewest(s: Store, vs: set<FileEntry>) {
    && (forall p | p in s :: s[p].path == p && s[p] in vs)
    && (forall m | m in vs :: m.path in s && Leq(m.clock, s[m.path].clock))
  }

  lemma MergeKeepsNewest(s: Store, vs: set<FileEntry>, m: FileEntry)
    requires HoldsNewest(s, vs) && Linear(vs + {m})
    ensures HoldsNewest(Merged(s, m), vs + {m})
  {
    if m.path in s {
      var mine := s[m.path];
      assert Chained(mine, m);
      assert Merged(s, m) == if Leq(m.clock, mine.clock) then s else s[m.path := m];
      forall x | x in vs && x.path == m.path
        ensures Leq(x.clock, Merged(s, m)[m.path].clock)
      {
        if !Leq(m.clock, mine.clock) { LeqTransitive(x.clock, mine.clock, m.clock); }
      }
    } else {
      assert Merged(s, m) == s[m.path := m];
    }
  }

  lemma {:induction false} LinearMergeKeepsNewest(ms: seq<FileEntry>)
    requires Linear(Elems(ms))
    ensures HoldsNewest(MergeAll(map[], ms), Elems(ms))
  {
    if ms != [] {
      ElemsSplit(ms);
      LinearMergeKeepsNewest(ms[..|ms| - 1]);
      MergeKeepsNewest(MergeAll(map[], ms[..|ms| - 1]), Elems(ms[..|ms| - 1]), ms[|ms| - 1]);
    }
  }

  lemma NewestIsUnique(s: Store, t: Store, vs: set<FileEntry>)
    requires Linear(vs) && HoldsNewest(s, vs) && HoldsNewest(t, vs)
    ensures s == t
  {
    assert s.Keys == t.Keys by {
      assert forall p | p in s :: s[p] in vs && p in t;
      assert forall p | p in t :: t[p] in vs && p in s;
    }
    forall p | p in s
      ensures s[p] == t[p]
    {
      assert Chained(s[p], t[p]);
    }
  }

  // Convergence as promised: the whole state is independent of order and repetition when no two
  // versions of a path are concurrent.
  lemma LinearMergeConverges(ms: seq<FileEntry>, ns: seq<FileEntry>)
    requires Linear(Elems(ms)) && Elems(ms) == Elems(ns)
    ensures MergeAll(map[], ms) == MergeAll(map[], ns)
  {
    LinearMergeKeepsNewest(ms);
    LinearMergeKeepsNewest(ns);
    NewestIsUnique(MergeAll(map[], ms), MergeAll(map[], ns), Elems(ms));
  }

  // ---------- Two versions of one path, merged in either order ----------

  // The conflict copy of m is already there.
  ghost predicate CopyHeld(s: Store, m: FileEntry) {
    ForkOf(m).path in s && s[ForkOf(m).path] == ForkOf(m)
  }

  // m is the same version or causally older or newer.
  ghost predicate SameOrOrdered(a: FileEntry, b: FileEntry) {
    a == b || Order(a.clock, b.clock) in {Before, After}
  }

  // The local version e is older than a and concurrent with b.
  ghost predicate CommuteNewer(s: Store, e: FileEntry, a: FileEntry, b: FileEntry) {
    var c := Join(e.clock, b.clock);
    if Leq(b.clock, a.clock) then
      CopyHeld(s, b) && (Leq(a.clock, c) ==> a == e.(clock := c))
    else if Leq(a.clock, c) then
      a.(clock := Join(a.clock, b.clock)) == e.(clock := c)
    else
      && a.(clock := Join(a.clock, b.clock)) == e.(clock := Join(c, a.clock))
      && a.lastWriter != b.lastWriter && CopyHeld(s, a)
  }

  // The local version e is concurrent with both. Once it has joined one of them it may cover the other.
  ghost predicate CommuteConflicting(s: Store, e: FileEntry, a: FileEntry, b: FileEntry) {
    var ca, cb := Join(e.clock, a.clock), Join(e.clock, b.clock);
    CommuteForks(s, a, b, ca, cb, Leq(a.clock, cb), Leq(b.clock, ca))
  }

  ghost predicate CommuteForks(s: Store, a: FileEntry, b: FileEntry, ca: Clock, cb: Clock, coveredA: bool, coveredB: bool) {
    if coveredA && coveredB then
      a == b || (a.lastWriter != b.lastWriter && CopyHeld(s, a) && CopyHeld(s, b) && ca == cb)
    else if coveredB then
      ca == Join(cb, a.clock) && (a.lastWriter == b.lastWriter || CopyHeld(s, b))
    else if coveredA then
      cb == Join(ca, b.clock) && (a.lastWriter == b.lastWriter || CopyHeld(s, a))
    else
      a.lastWriter != b.lastWriter
  }

  // What to look at, before merging a and b into s, to know whether the order matters.
  ghost predicate Commute(s: Store, a: FileEntry, b: FileEntry) {
    if a.path !in s then SameOrOrdered(a, b) else
    var e := s[a.path];
    if Leq(a.clock, e.clock) || Leq(b.clock, e.clock) then true
    else if Leq(e.clock, a.clock) && Leq(e.clock, b.clock) then SameOrOrdered(a, b)
    else if Leq(e.clock, a.clock) then CommuteNewer(s, e, a, b)
    else if Leq(e.clock, b.clock) then CommuteNewer(s, e, b, a)
    else CommuteConflicting(s, e, a, b)
  }

  // s after a conflict with m that leaves e in place.
  ghost function WithFork(s: Store, m: FileEntry, e: FileEntry): Store {
    s[ForkOf(m).path := ForkOf(m)][m.path := e]
  }

  lemma MergedCases(s: Store, m: FileEntry)
    requires m.path in s
    ensures var e := s[m.path];
        Merged(s, m) ==
          if Leq(m.clock, e.clock) then s
          else if Leq(e.clock, m.clock) then s[m.path := m]
          else WithFork(s, m, e.(clock := Join(e.clock, m.clock)))
  {
    ConflictPathLonger(m.path, m.lastWriter);
  }

  lemma CoveredCommutes(s: Store, a: FileEntry, b: FileEntry)
    requires a.path == b.path && a.path in s && Leq(a.clock, s[a.path].clock)
    ensures Merged(Merged(s, a), b) == Merged(Merged(s, b), a) == Merged(s, b)
  {
    var t, c := Merged(s, b), s[a.path].clock;
    MergedCases(s, a);
    MergedCases(s, b);
    JoinIsLub(c, b.clock);
    LeqTransitive(a.clock, c, t[a.path].clock);
    MergedCases(t, a);
  }

  // Both versions replace what is there, if anything is.
  lemma CommuteOver(s: Store, a: FileEntry, b: FileEntry)
    requires a.path == b.path && Merged(s, a) == s[a.path := a] && Merged(s, b) == s[b.path := b]
    ensures Merged(Merged(s, a), b) == Merged(Merged(s, b), a) <==> SameOrOrdered(a, b)
  {
    var p, ab, ba := a.path, Merged(Merged(s, a), b), Merged(Merged(s, b), a);
    MergedCases(s[p := a], b);
    MergedCases(s[p := b], a);
    assert s[p := a][p := b] == s[p := b] && s[p := b][p := a] == s[p := a];
    if !Leq(a.clock, b.clock) && !Leq(b.clock, a.clock) {
      ConflictPathLonger(p, a.lastWriter);
      ConflictPathLonger(p, b.lastWriter);
      SameForkPath(a, b);
      if a.lastWriter == b.lastWriter {
        assert ab[ForkOf(b).path].clock == b.clock && ba[ForkOf(b).path].clock == a.clock;
      } else {
        assert ab[p].lastWriter == a.lastWriter && ba[p].lastWriter == b.lastWriter;
      }
    } else {
      assert ab[p] == (if Leq(b.clock, a.clock) then a else b) && ba[p] == (if Leq(a.clock, b.clock) then b else a);
    }
  }

  // Only what is at p and at the two fork paths can tell the two results apart.
  ghost predicate AgreeAt(s: Store, t: Store, r: string) {
    (r in s <==> r in t) && (r in s ==> s[r] == t[r])
  }

  lemma ForkLeaves(s: Store, m: FileEntry, e: FileEntry, u: Store)
    requires u == WithFork(s, m, e) && e.path == m.path
    ensures ForkOf(m).path != m.path
    ensures m.path in u && u[m.path] == e && ForkOf(m).path in u && u[ForkOf(m).path] == ForkOf(m)
    ensures forall r | r != m.path && r != ForkOf(m).path :: AgreeAt(s, u, r)
  {
    ConflictPathLonger(m.path, m.lastWriter);
  }

  lemma SameForkPath(a: FileEntry, b: FileEntry)
    requires a.path == b.path
    ensures ForkOf(a).path == ForkOf(b).path <==> a.lastWriter == b.lastWriter
  {
    if ForkOf(a).path == ForkOf(b).path { ConflictPathInjectiveInWriter(a.path, a.lastWriter, b.lastWriter); }
  }

  lemma NewerCommutes(s: Store, a: FileEntry, b: FileEntry)
    requires Keyed(s) && a.path == b.path && a.path in s
    requires var e := s[a.path]; Leq(e.clock, a.clock) && !Leq(a.clock, e.clock) && !Comparable(e.clock, b.clock)
    ensures Merged(Merged(s, a), b) == Merged(Merged(s, b), a) <==> CommuteNewer(s, s[a.path], a, b)
  {
    var p, e := a.path, s[a.path];
    var c := Join(e.clock, b.clock);
    var l, r := s[p := a], WithFork(s, b, e.(clock := c));
    MergedCases(s, a);
    MergedCases(s, b);
    MergedCases(l, b);
    MergedCases(r, a);
    JoinIsLub(e.clock, b.clock);
    assert !Leq(a.clock, b.clock) by { if Leq(a.clock, b.clock) { LeqTransitive(e.clock, a.clock, b.clock); } }
    ForkLeaves(s, b, e.(clock := c), r);
    if Leq(b.clock, a.clock) {
      assert Leq(c, a.clock);
      NewerCovers(s, a, b, e, c, r);
    } else {
      NewerConflicts(s, a, b, e, c, r);
    }
  }

  lemma NewerCovers(s: Store, a: FileEntry, b: FileEntry, e: FileEntry, c: Clock, r: Store)
    requires a.path == b.path == e.path && r == WithFork(s, b, e.(clock := c)) && Leq(c, a.clock)
    ensures s[a.path := a] == (if Leq(a.clock, c) then r else r[a.path := a])
        <==> CopyHeld(s, b) && (Leq(a.clock, c) ==> a == e.(clock := c))
  {
    var l, u := s[a.path := a], if Leq(a.clock, c) then r else r[a.path := a];
    ForkLeaves(s, b, e.(clock := c), r);
    if l == u { assert AgreeAt(l, u, ForkOf(b).path) && AgreeAt(l, u, a.path); }
  }

  lemma NewerConflicts(s: Store, a: FileEntry, b: FileEntry, e: FileEntry, c: Clock, r: Store)
    requires a.path == b.path == e.path && r == WithFork(s, b, e.(clock := c)) && !Leq(a.clock, b.clock)
    ensures WithFork(s[a.path := a], b, a.(clock := Join(a.clock, b.clock)))
         == (if Leq(a.clock, c) then r else WithFork(r, a, e.(clock := Join(c, a.clock))))
        <==> (if Leq(a.clock, c) then a.(clock := Join(a.clock, b.clock)) == e.(clock := c)
              else a.(clock := Join(a.clock, b.clock)) == e.(clock := Join(c, a.clock)) && a.lastWriter != b.lastWriter && CopyHeld(s, a))
  {
    var e' := a.(clock := Join(a.clock, b.clock));
    var l := WithFork(s[a.path := a], b, e');
    var u := if Leq(a.clock, c) then r else WithFork(r, a, e.(clock := Join(c, a.clock)));
    ForkLeaves(s, b, e.(clock := c), r);
    ForkLeaves(s[a.path := a], b, e', l);
    SameForkPath(a, b);
    if !Leq(a.clock, c) { ForkLeaves(r, a, e.(clock := Join(c, a.clock)), u); }
    if l == u { assert AgreeAt(l, u, ForkOf(b).path) && AgreeAt(l, u, a.path) && AgreeAt(l, u, ForkOf(a).path); }
  }

  lemma MergeAfterFork(s: Store, a: FileEntry, b: FileEntry, e: FileEntry, ca: Clock)
    requires a.path == b.path == e.path && ca == Join(e.clock, a.clock) && !Comparable(e.clock, b.clock)
    ensures var l := WithFork(s, a, e.(clock := ca));
        Merged(l, b) == if Leq(b.clock, ca) then l else WithFork(l, b, e.(clock := Join(ca, b.clock)))
  {
    var l := WithFork(s, a, e.(clock := ca));
    MergedCases(l, b);
    assert Leq(e.clock, ca);
    if Leq(ca, b.clock) { LeqTransitive(e.clock, ca, b.clock); }
  }

  lemma ConflictingCommute(s: Store, a: FileEntry, b: FileEntry)
    requires Keyed(s) && a.path == b.path && a.path in s
    requires var e := s[a.path]; !Comparable(e.clock, a.clock) && !Comparable(e.clock, b.clock)
    ensures Merged(Merged(s, a), b) == Merged(Merged(s, b), a) <==> CommuteConflicting(s, s[a.path], a, b)
  {
    var e := s[a.path];
    var ca, cb := Join(e.clock, a.clock), Join(e.clock, b.clock);
    MergedCases(s, a);
    MergedCases(s, b);
    MergeAfterFork(s, a, b, e, ca);
    MergeAfterFork(s, b, a, e, cb);
    JoinsAgree(e.clock, a.clock, b.clock);
    JoinIsLub(e.clock, b.clock);
    ForksCompared(s, a, b, e, ca, cb, Leq(a.clock, cb), Leq(b.clock, ca));
  }

  lemma JoinsAgree(c: Clock, a: Clock, b: Clock)
    ensures Join(Join(c, a), b) == Join(Join(c, b), a)
  {
    JoinOfThree(c, a, b);
    JoinOfThree(c, b, a);
    SameClocks(Join(Join(c, a), b), Join(Join(c, b), a));
  }

  lemma JoinOfThree(c: Clock, a: Clock, b: Clock)
    ensures Join(Join(c, a), b).Keys == c.Keys + a.Keys + b.Keys
    ensures forall n :: Get(Join(Join(c, a), b), n) == Max(Max(Get(c, n), Get(a, n)), Get(b, n))
  {
    JoinIsLub(c, a);
    JoinIsLub(Join(c, a), b);
  }

  lemma SameClocks(c: Clock, d: Clock)
    requires c.Keys == d.Keys && forall n :: Get(c, n) == Get(d, n)
    ensures c == d
  {
    assert forall n | n in c :: c[n] == Get(c, n) && d[n] == Get(d, n);
  }

  lemma ForksCompared(s: Store, a: FileEntry, b: FileEntry, e: FileEntry, ca: Clock, cb: Clock, coveredA: bool, coveredB: bool)
    requires a.path == b.path == e.path && (a == b ==> ca == cb) && (!coveredA ==> a.clock != b.clock) && Join(ca, b.clock) == Join(cb, a.clock)
    ensures var l, r := WithFork(s, a, e.(clock := ca)), WithFork(s, b, e.(clock := cb));
        (if coveredB then l else WithFork(l, b, e.(clock := Join(ca, b.clock))))
        == (if coveredA then r else WithFork(r, a, e.(clock := Join(cb, a.clock))))
        <==> CommuteForks(s, a, b, ca, cb, coveredA, coveredB)
  {
    if coveredA && coveredB {
      BothCovered(s, a, b, e, ca, cb);
    } else if coveredB {
      OneCovered(s, a, b, e, ca, cb);
    } else if coveredA {
      OneCovered(s, b, a, e, cb, ca);
    } else {
      NoneCovered(s, a, b, e, ca, cb);
    }
  }

  lemma BothCovered(s: Store, a: FileEntry, b: FileEntry, e: FileEntry, ca: Clock, cb: Clock)
    requires a.path == b.path == e.path && (a == b ==> ca == cb)
    ensures WithFork(s, a, e.(clock := ca)) == WithFork(s, b, e.(clock := cb))
        <==> a == b || (a.lastWriter != b.lastWriter && CopyHeld(s, a) && CopyHeld(s, b) && ca == cb)
  {
    var l, r := WithFork(s, a, e.(clock := ca)), WithFork(s, b, e.(clock := cb));
    ForkLeaves(s, a, e.(clock := ca), l);
    ForkLeaves(s, b, e.(clock := cb), r);
    SameForkPath(a, b);
    TellApart(l, r, a, b);
    assert ForkOf(a) == ForkOf(b) ==> a == ForkOf(a).(path := a.path) == b;
  }

  lemma OneCovered(s: Store, a: FileEntry, b: FileEntry, e: FileEntry, ca: Clock, cb: Clock)
    requires a.path == b.path == e.path
    ensures WithFork(s, a, e.(clock := ca)) == WithFork(WithFork(s, b, e.(clock := cb)), a, e.(clock := Join(cb, a.clock)))
        <==> ca == Join(cb, a.clock) && (a.lastWriter == b.lastWriter || CopyHeld(s, b))
  {
    var l, m := WithFork(s, a, e.(clock := ca)), WithFork(s, b, e.(clock := cb));
    var r := WithFork(m, a, e.(clock := Join(cb, a.clock)));
    ForkLeaves(s, a, e.(clock := ca), l);
    ForkLeaves(s, b, e.(clock := cb), m);
    ForkLeaves(m, a, e.(clock := Join(cb, a.clock)), r);
    SameForkPath(a, b);
    TellApart(l, r, a, b);
  }

  lemma NoneCovered(s: Store, a: FileEntry, b: FileEntry, e: FileEntry, ca: Clock, cb: Clock)
    requires a.path == b.path == e.path && Join(ca, b.clock) == Join(cb, a.clock) && a.clock != b.clock
    ensures WithFork(WithFork(s, a, e.(clock := ca)), b, e.(clock := Join(ca, b.clock)))
         == WithFork(WithFork(s, b, e.(clock := cb)), a, e.(clock := Join(cb, a.clock)))
        <==> a.lastWriter != b.lastWriter
  {
    var m, n := WithFork(s, a, e.(clock := ca)), WithFork(s, b, e.(clock := cb));
    var l, r := WithFork(m, b, e.(clock := Join(ca, b.clock))), WithFork(n, a, e.(clock := Join(cb, a.clock)));
    ForkLeaves(s, a, e.(clock := ca), m);
    ForkLeaves(s, b, e.(clock := cb), n);
    ForkLeaves(m, b, e.(clock := Join(ca, b.clock)), l);
    ForkLeaves(n, a, e.(clock := Join(cb, a.clock)), r);
    SameForkPath(a, b);
    TellApart(l, r, a, b);
  }

  lemma TellApart(l: Store, r: Store, a: FileEntry, b: FileEntry)
    requires forall q | q != a.path && q != ForkOf(a).path && q != ForkOf(b).path :: AgreeAt(l, r, q)
    ensures l == r <==> AgreeAt(l, r, a.path) && AgreeAt(l, r, ForkOf(a).path) && AgreeAt(l, r, ForkOf(b).path)
  {
    if AgreeAt(l, r, a.path) && AgreeAt(l, r, ForkOf(a).path) && AgreeAt(l, r, ForkOf(b).path) {
      forall q
        ensures AgreeAt(l, r, q)
      {
      }
      assert l.Keys == r.Keys by { assert forall q :: AgreeAt(l, r, q) ==> (q in l.Keys <==> q in r.Keys); }
      assert forall q | q in l :: AgreeAt(l, r, q);
    }
  }

  // The promise fails: two versions of one path merge commutatively exactly under this condition.
  lemma MergeCommutesExactly(s: Store, a: FileEntry, b: FileEntry)
    requires Keyed(s) && a.path == b.path
    ensures Merged(Merged(s, a), b) == Merged(Merged(s, b), a) <==> Commute(s, a, b)
  {
    if a.path !in s {
      CommuteOver(s, a, b);
    } else {
      var e := s[a.path];
      if Leq(a.clock, e.clock) {
        CoveredCommutes(s, a, b);
      } else if Leq(b.clock, e.clock) {
        CoveredCommutes(s, b, a);
      } else if Leq(e.clock, a.clock) && Leq(e.clock, b.clock) {
        CommuteOver(s, a, b);
      } else if Leq(e.clock, a.clock) {
        NewerCommutes(s, a, b);
      } else if Leq(e.clock, b.clock) {
        NewerCommutes(s, b, a);
      } else {
        ConflictingCommute(s, a, b);
      }
    }
  }

  // Not even causally ordered versions always commute: merged first, the older one leaves a conflict copy
  // at a replica whose version it conflicts with; merged second, it does not.
  lemma OrderedVersionsMayNotCommute(e: FileEntry, a: FileEntry, b: FileEntry)
    requires e.path == a.path == b.path && Order(e.clock, a.clock).Before? && Order(b.clock, a.clock).Before?
    requires Order(e.clock, b.clock).Concurrent?
    ensures var s := map[e.path := e]; Merged(Merged(s, a), b) != Merged(Merged(s, b), a)
  {
    MergeCommutesExactly(map[e.path := e], a, b);
    ConflictPathLonger(b.path, b.lastWriter);
  }

  // All that merging m may change.
  ghost predicate Touches(m: FileEntry, r: string) {
    r == m.path || r == ForkOf(m).path
  }

  lemma UntouchedStays(s: Store, m: FileEntry, r: string)
    requires Keyed(s) && !Touches(m, r)
    ensures AgreeAt(s, Merged(s, m), r)
  {
    MergeMeaning(s, m);
  }

  lemma TouchedAlike(s: Store, t: Store, m: FileEntry, r: string)
    requires AgreeAt(s, t, m.path) && AgreeAt(s, t, ForkOf(m).path) && Touches(m, r)
    ensures AgreeAt(Merged(s, m), Merged(t, m), r)
  {
    ConflictPathLonger(m.path, m.lastWriter);
  }

  lemma CommuteAt(s: Store, a: FileEntry, b: FileEntry, r: string)
    requires Keyed(s) && (forall q :: !(Touches(a, q) && Touches(b, q))) && !Touches(b, r)
    ensures AgreeAt(Merged(Merged(s, a), b), Merged(Merged(s, b), a), r)
  {
    MergeMeaning(s, a);
    MergeMeaning(s, b);
    UntouchedStays(s, b, r);
    UntouchedStays(Merged(s, a), b, r);
    if Touches(a, r) {
      UntouchedStays(s, b, a.path);
      UntouchedStays(s, b, ForkOf(a).path);
      TouchedAlike(s, Merged(s, b), a, r);
    } else {
      UntouchedStays(s, a, r);
      UntouchedStays(Merged(s, b), a, r);
    }
  }

  // Versions of different paths commute on every replica as long as no fork of one lands on the other.
  lemma DifferentPathsCommute(s: Store, a: FileEntry, b: FileEntry)
    requires Keyed(s) && forall q :: !(Touches(a, q) && Touches(b, q))
    ensures Merged(Merged(s, a), b) == Merged(Merged(s, b), a)
  {
    var ab, ba := Merged(Merged(s, a), b), Merged(Merged(s, b), a);
    forall r
      ensures AgreeAt(ab, ba, r)
    {
      if Touches(b, r) { CommuteAt(s, b, a, r); } else { CommuteAt(s, a, b, r); }
    }
    SameEverywhere(ab, ba);
  }

  lemma SameEverywhere(s: Store, t: Store)
    requires forall r :: AgreeAt(s, t, r)
    ensures s == t
  {
    assert forall r | r in s :: AgreeAt(s, t, r);
    assert forall r | r in t :: AgreeAt(s, t, r);
  }

  // ---------- Survival of concurrent versions ----------

  // v's history contains u's last edit.
  ghost predicate CountsLastWrite(v: FileEntry, u: FileEntry) {
    Get(v.clock, u.lastWriter) >= Get(u.clock, u.lastWriter)
  }

  // Versions of one path as their writers recorded them.
  ghost predicate AsWritten(vs: set<FileEntry>, path: string) {
    && (forall v | v in vs :: v.path == path)
    && (forall u, v | u in vs && v in vs && CountsLastWrite(v, u) :: Leq(u.clock, v.clock))
    && (forall u, v | u in vs && v in vs && Same(u.clock, v.clock) :: u == v)
  }

  ghost predicate Maximal(vs: set<FileEntry>, v: FileEntry) {
    v in vs && forall u | u in vs && Leq(v.clock, u.clock) :: u == v
  }

  ghost predicate SameVersion(e: FileEntry, v: FileEntry) {
    e.(clock := v.clock) == v
  }

  // v can still be read, at its own path or at its writer's conflict path.
  ghost predicate Survives(s: Store, v: FileEntry) {
    || (v.path in s && SameVersion(s[v.path], v))
    || (ForkOf(v).path in s && s[ForkOf(v).path] == ForkOf(v))
  }

  // Every positive counter of c comes from one of the versions in done.
  ghost predicate Attained(c: Clock, done: set<FileEntry>) {
    forall n | Get(c, n) > 0 :: AttainedAt(c, done, n)
  }

  ghost predicate AttainedAt(c: Clock, done: set<FileEntry>, n: string) {
    exists u | u in done :: Get(u.clock, n) == Get(c, n)
  }

  // Every conflict copy of path is a copy of one of the versions in done.
  ghost predicate ForksFrom(s: Store, path: string, done: set<FileEntry>) {
    forall w | ConflictPath(path, w) in s :: ForkFrom(s[ConflictPath(path, w)], path, done, w)
  }

  ghost predicate ForkFrom(fork: FileEntry, path: string, done: set<FileEntry>, w: string) {
    fork.(path := path) in done && fork.lastWriter == w
  }

  ghost predicate Bounded(done: set<FileEntry>, c: Clock) {
    forall v | v in done :: Leq(v.clock, c)
  }

  ghost predicate MaximalSurvive(s: Store, vs: set<FileEntry>, done: set<FileEntry>) {
    forall v | v in done && Maximal(vs, v) :: Survives(s, v)
  }

  // The replica after merging the versions in done, all taken from vs; kept is the one in place.
  ghost predicate MergedFrom(s: Store, vs: set<FileEntry>, path: string, done: set<FileEntry>, kept: FileEntry) {
    && done <= vs && path in s && s[path].path == path && kept in done
    && SameVersion(s[path], kept)
    && Bounded(done, s[path].clock)
    && Attained(s[path].clock, done)
    && ForksFrom(s, path, done)
    && MaximalSurvive(s, vs, done)
  }

  lemma CountedVersionIsBelow(s: Store, vs: set<FileEntry>, path: string, done: set<FileEntry>, kept: FileEntry, m: FileEntry)
    requires AsWritten(vs, path) && MergedFrom(s, vs, path, done, kept)
    requires m in vs && Get(m.clock, m.lastWriter) <= Get(s[path].clock, m.lastWriter)
    ensures Leq(m.clock, s[path].clock)
    ensures Maximal(vs, m) ==> m in done
  {
    var c, n := s[path].clock, m.lastWriter;
    if Get(c, n) > 0 {
      assert AttainedAt(c, done, n);
      var u :| u in done && Get(u.clock, n) == Get(c, n);
      assert CountsLastWrite(u, m);
      LeqTransitive(m.clock, u.clock, c);
    } else {
      assert CountsLastWrite(kept, m);
      LeqTransitive(m.clock, kept.clock, c);
    }
  }

  lemma AdoptKeepsMaximal(s: Store, vs: set<FileEntry>, path: string, done: set<FileEntry>, kept: FileEntry, m: FileEntry)
    requires AsWritten(vs, path) && MergedFrom(s, vs, path, done, kept)
    requires m in vs && Leq(s[path].clock, m.clock)
    ensures MergedFrom(s[path := m], vs, path, done + {m}, m)
  {
    var t := s[path := m];
    forall v | v in done
      ensures Leq(v.clock, m.clock)
      ensures Maximal(vs, v) ==> v == m
    {
      LeqTransitive(v.clock, s[path].clock, m.clock);
    }
    forall n | Get(m.clock, n) > 0
      ensures AttainedAt(m.clock, done + {m}, n)
    {
      assert m in done + {m};
    }
    forall w | ConflictPath(path, w) in t
      ensures ForkFrom(t[ConflictPath(path, w)], path, done + {m}, w)
    {
      ConflictPathLonger(path, w);
      assert ForkFrom(s[ConflictPath(path, w)], path, done, w);
    }
  }

  lemma JoinAttained(c: Clock, done: set<FileEntry>, m: FileEntry)
    requires Attained(c, done)
    ensures Attained(Join(c, m.clock), done + {m})
  {
    var j, done' := Join(c, m.clock), done + {m};
    forall n | Get(j, n) > 0
      ensures AttainedAt(j, done', n)
    {
      if Get(c, n) < Get(m.clock, n) {
        assert m in done';
      } else {
        assert AttainedAt(c, done, n);
        var u :| u in done && Get(u.clock, n) == Get(c, n);
        assert u in done';
      }
    }
  }

  lemma ForkKeepsForks(s: Store, path: string, done: set<FileEntry>, m: FileEntry, e: FileEntry)
    requires ForksFrom(s, path, done) && m.path == path
    ensures ForksFrom(s[ForkOf(m).path := ForkOf(m)][path := e], path, done + {m})
  {
    var t := s[ForkOf(m).path := ForkOf(m)][path := e];
    forall w | ConflictPath(path, w) in t
      ensures ForkFrom(t[ConflictPath(path, w)], path, done + {m}, w)
    {
      ConflictPathLonger(path, w);
      if ConflictPath(path, w) == ForkOf(m).path {
        ConflictPathInjectiveInWriter(path, w, m.lastWriter);
      } else {
        assert ForkFrom(s[ConflictPath(path, w)], path, done, w);
      }
    }
  }

  // A fork may overwrite an earlier fork of the same writer, but only one with a smaller clock.
  lemma ForkReplacesOlder(s: Store, vs: set<FileEntry>, path: string, done: set<FileEntry>, kept: FileEntry,
                          m: FileEntry, v: FileEntry)
    requires AsWritten(vs, path) && MergedFrom(s, vs, path, done, kept)
    requires m in vs && v in done && Maximal(vs, v) && v.lastWriter == m.lastWriter
    ensures Leq(m.clock, s[path].clock)
  {
    assert CountsLastWrite(m, v) || CountsLastWrite(v, m);
    LeqTransitive(m.clock, v.clock, s[path].clock);
  }

  lemma ForkSurvivors(s: Store, vs: set<FileEntry>, path: string, done: set<FileEntry>, kept: FileEntry,
                      m: FileEntry, e: FileEntry, v: FileEntry)
    requires AsWritten(vs, path) && MergedFrom(s, vs, path, done, kept)
    requires m in vs && !Leq(m.clock, s[path].clock) && e == s[path].(clock := e.clock)
    requires v in done + {m} && Maximal(vs, v)
    ensures Survives(s[ForkOf(m).path := ForkOf(m)][path := e], v)
  {
    ConflictPathLonger(path, v.lastWriter);
    if v != m {
      assert Survives(s, v);
      if v.lastWriter == m.lastWriter {
        ForkReplacesOlder(s, vs, path, done, kept, m, v);
      } else if ForkOf(v).path == ForkOf(m).path {
        ConflictPathInjectiveInWriter(path, v.lastWriter, m.lastWriter);
      }
    }
  }

  lemma ForkKeepsMaximal(s: Store, vs: set<FileEntry>, path: string, done: set<FileEntry>, kept: FileEntry, m: FileEntry)
    requires AsWritten(vs, path) && MergedFrom(s, vs, path, done, kept)
    requires m in vs && !Leq(m.clock, s[path].clock)
    ensures MergedFrom(s[ForkOf(m).path := ForkOf(m)][path := s[path].(clock := Join(s[path].clock, m.clock))],
                       vs, path, done + {m}, kept)
  {
    var c := s[path].clock;
    var e := s[path].(clock := Join(c, m.clock));
    var t := s[ForkOf(m).path := ForkOf(m)][path := e];
    ConflictPathLonger(path, m.lastWriter);
    JoinIsLub(c, m.clock);
    JoinAttained(c, done, m);
    ForkKeepsForks(s, path, done, m, e);
    forall v | v in done
      ensures Leq(v.clock, e.clock)
    {
      LeqTransitive(v.clock, c, e.clock);
    }
    forall v | v in done + {m} && Maximal(vs, v)
      ensures Survives(t, v)
    {
      ForkSurvivors(s, vs, path, done, kept, m, e, v);
    }
  }

  lemma MergeKeepsMaximal(s: Store, vs: set<FileEntry>, path: string, done: set<FileEntry>, kept: FileEntry, m: FileEntry)
      returns (kept': FileEntry)
    requires AsWritten(vs, path) && MergedFrom(s, vs, path, done, kept) && m in vs
    ensures MergedFrom(Merged(s, m), vs, path, done + {m}, kept')
  {
    kept' := kept;
    MergedCases(s, m);
    if Leq(m.clock, s[path].clock) {
      StaleKeepsMaximal(s, vs, path, done, kept, m);
    } else if Leq(s[path].clock, m.clock) {
      kept' := m;
      AdoptKeepsMaximal(s, vs, path, done, kept, m);
    } else {
      ForkKeepsMaximal(s, vs, path, done, kept, m);
    }
  }

  lemma StaleKeepsMaximal(s: Store, vs: set<FileEntry>, path: string, done: set<FileEntry>, kept: FileEntry, m: FileEntry)
    requires AsWritten(vs, path) && MergedFrom(s, vs, path, done, kept)
    requires m in vs && Leq(m.clock, s[path].clock)
    ensures MergedFrom(s, vs, path, done + {m}, kept)
  {
    CountedVersionIsBelow(s, vs, path, done, kept, m);
    forall n | Get(s[path].clock, n) > 0
      ensures AttainedAt(s[path].clock, done + {m}, n)
    {
      assert AttainedAt(s[path].clock, done, n);
    }
    forall w | ConflictPath(path, w) in s
      ensures ForkFrom(s[ConflictPath(path, w)], path, done + {m}, w)
    {
      assert ForkFrom(s[ConflictPath(path, w)], path, done, w);
    }
  }

  lemma {:induction false} MergedFromAll(ms: seq<FileEntry>, vs: set<FileEntry>, path: string) returns (kept: FileEntry)
    requires AsWritten(vs, path) && ms != [] && Elems(ms) <= vs
    ensures MergedFrom(MergeAll(map[], ms), vs, path, Elems(ms), kept)
  {
    var before, m := ms[..|ms| - 1], ms[|ms| - 1];
    ElemsSplit(ms);
    assert m.path == path;
    if before == [] {
      kept := m;
      assert MergeAll(map[], ms) == map[path := m];
      FirstMerge(vs, path, m);
    } else {
      var k := MergedFromAll(before, vs, path);
      kept := MergeKeepsMaximal(MergeAll(map[], before), vs, path, Elems(before), k, m);
    }
  }

  lemma FirstMerge(vs: set<FileEntry>, path: string, m: FileEntry)
    requires AsWritten(vs, path) && m in vs
    ensures MergedFrom(map[path := m], vs, path, {m}, m)
  {
    forall w ensures ConflictPath(path, w) != path { ConflictPathLonger(path, w); }
    forall n ensures AttainedAt(m.clock, {m}, n) { assert m in {m}; }
  }

  // In whatever order, and however often, the as-written versions of a path reach a new replica, every
  // version that no other supersedes is still there at the end.
  lemma ConcurrentVersionsSurvive(ms: seq<FileEntry>, path: string, v: FileEntry)
    requires AsWritten(Elems(ms), path)
    requires Maximal(Elems(ms), v)
    ensures Survives(MergeAll(map[], ms), v)
  {
    var vs := Elems(ms);
    assert ms != [];
    var kept := MergedFromAll(ms, vs, path);
  }
}
