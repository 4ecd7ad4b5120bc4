// Complete sessions alone, with no message lost, reordered or repeated, can lose the newest edit of three
// nodes, in whatever order the manifests list their entries.
module SessionLoss {
  import opened Basics
  import opened VectorClocks
  import opened ConflictPaths
  import opened CrdtStores
  import opened MergeOrder
  import opened Replication
  import opened Quiescence
  import opened DataLoss
  import Manifests
  import O = SessionOutcomes

  // ---------- Histories of edits and complete sessions ----------

  datatype Event = Edit(act: Action) | Meet(i: string, j: string)

  // The session may list the entries of both manifests in any order.
  ghost predicate Meets(s: System, t: System, i: string, j: string) {
    exists la, lb | Lists(s, i, j, la, lb) :: t == Session(s, i, j, la, lb)
  }

  ghost predicate Follows(s: System, e: Event, t: System) {
    match e
    case Edit(act) => IsEdit(act) && Enabled(s, act) && t == Apply(s, act)
    case Meet(i, j) => Meets(s, t, i, j)
  }

  ghost predicate IsHistory(nodes: set<string>, events: seq<Event>, states: seq<System>) {
    && |states| == |events| + 1 && states[0] == Init(nodes)
    && forall n | 0 <= n < |events| :: Follows(states[n], events[n], states[n + 1])
  }

  // ---------- A session side that meets one conflict ----------

  // y's version of p conflicts with x's; all else is comparable, and no copy that is around is newer than
  // the one that the conflict makes.
  ghost predicate OneConflict(x: Store, y: Store, p: string) {
    && Keyed(x) && Keyed(y) && p in x && p in y && !Comparable(x[p].clock, y[p].clock)
    && (forall r | r != p && r in x && r in y :: Comparable(x[r].clock, y[r].clock))
    && var q := ForkOf(y[p]).path;
       (q in x ==> Leq(x[q].clock, y[p].clock)) && (q in y ==> Leq(y[q].clock, y[p].clock))
  }

  ghost function Joined(x: Store, y: Store, p: string): FileEntry
    requires p in x && p in y
  {
    x[p].(clock := Join(x[p].clock, y[p].clock))
  }

  // What is at r after x has merged the entries in done.
  ghost predicate StateAt(t: Store, x: Store, y: Store, p: string, done: set<FileEntry>, r: string)
    requires p in x && p in y
  {
    if r == p then p in t && t[p] == (if y[p] in done then Joined(x, y, p) else x[p])
    else if r == ForkOf(y[p]).path && y[p] in done then r in t && t[r] == ForkOf(y[p])
    else OverlaidAt(t, x, y, done, r)
  }

  ghost predicate StateIs(t: Store, x: Store, y: Store, p: string, done: set<FileEntry>)
    requires p in x && p in y
  {
    forall r :: StateAt(t, x, y, p, done, r)
  }

  lemma MergeTheRival(t: Store, x: Store, y: Store, p: string, done: set<FileEntry>)
    requires OneConflict(x, y, p) && StateIs(t, x, y, p, done)
    ensures StateIs(Merged(t, y[p]), x, y, p, done + {y[p]})
  {
    var m, u := y[p], Merged(t, y[p]);
    assert StateAt(t, x, y, p, done, p);
    MergedCases(t, m);
    JoinIsLub(x[p].clock, m.clock);
    ConflictPathLonger(p, m.lastWriter);
    forall r
      ensures StateAt(u, x, y, p, done + {m}, r)
    {
      assert StateAt(t, x, y, p, done, r);
    }
  }

  lemma MergeAnother(t: Store, x: Store, y: Store, p: string, done: set<FileEntry>, m: FileEntry)
    requires OneConflict(x, y, p) && StateIs(t, x, y, p, done) && m.path != p && m.path in y && m == y[m.path]
    ensures StateIs(Merged(t, m), x, y, p, done + {m})
  {
    var u := Merged(t, m);
    assert StateAt(t, x, y, p, done, m.path);
    assert m.path in t ==> Comparable(t[m.path].clock, m.clock);
    assert u == if m.path in t && Leq(m.clock, t[m.path].clock) then t else t[m.path := m];
    forall r
      ensures StateAt(u, x, y, p, done + {m}, r)
    {
      assert StateAt(t, x, y, p, done, r);
    }
  }

  lemma {:induction false} MergeWithConflict(x: Store, y: Store, p: string, ms: seq<FileEntry>)
    requires OneConflict(x, y, p) && Elems(ms) <= Entries(y)
    ensures StateIs(MergeAll(x, ms), x, y, p, Elems(ms))
  {
    if ms == [] {
      forall r ensures StateAt(x, x, y, p, {}, r) {}
    } else {
      var before, m := ms[..|ms| - 1], ms[|ms| - 1];
      ElemsSplit(ms);
      MergeWithConflict(x, y, p, before);
      assert m in Entries(y);
      if m.path == p {
        MergeTheRival(MergeAll(x, before), x, y, p, Elems(before));
      } else {
        MergeAnother(MergeAll(x, before), x, y, p, Elems(before), m);
      }
    }
  }

  // Whatever the order of the manifest.
  lemma MergeAllWithConflict(x: Store, y: Store, p: string, ms: seq<FileEntry>)
    requires OneConflict(x, y, p) && Elems(ms) == Entries(y)
    ensures MergeAll(x, ms) == WithFork(NewerOf(x, y), y[p], Joined(x, y, p))
  {
    MergeWithConflict(x, y, p, ms);
    var t, u := MergeAll(x, ms), WithFork(NewerOf(x, y), y[p], Joined(x, y, p));
    assert y[p] in Entries(y);
    ConflictPathLonger(p, y[p].lastWriter);
    forall r
      ensures AgreeAt(t, u, r)
    {
      assert StateAt(t, x, y, p, Elems(ms), r);
      assert r in y ==> y[r] in Entries(y);
    }
    SameEverywhere(t, u);
  }

  // ---------- The three stores, by what they hold at one path and its two conflict paths ----------

  // A version: who wrote it, what, and how often a and b are counted.
  datatype Version = Version(writer: string, hashes: seq<Digest>, i: nat, j: nat)

  datatype Slots = Slots(main: Option<Version>, a: Option<Version>, b: Option<Version>)

  predicate Le(x: Version, y: Version) {
    x.i <= y.i && x.j <= y.j
  }

  function Newer(x: Option<Version>, y: Option<Version>): Option<Version> {
    if x.None? || (y.Some? && !Le(y.value, x.value)) then y else x
  }

  predicate Conflict(x: Slots, y: Slots) {
    x.main.Some? && y.main.Some? && !Le(x.main.value, y.main.value) && !Le(y.main.value, x.main.value)
  }

  function Max2(x: nat, y: nat): nat {
    if x < y then y else x
  }

  // What a session makes of x when the other side holds y.
  function Side(k: Cast, x: Slots, y: Slots): Slots {
    if Conflict(x, y) then
      var v, w := x.main.value, y.main.value;
      var e := v.(i := Max2(v.i, w.i), j := Max2(v.j, w.j));
      if w.writer == k.a then Slots(Some(e), Some(w), Newer(x.b, y.b)) else Slots(Some(e), Newer(x.a, y.a), Some(w))
    else
      Slots(Newer(x.main, y.main), Newer(x.a, y.a), Newer(x.b, y.b))
  }

  predicate Ordered(x: Option<Version>, y: Option<Version>) {
    x.Some? && y.Some? ==> Le(x.value, y.value) || Le(y.value, x.value)
  }

  predicate Below(x: Option<Version>, w: Version) {
    x.Some? ==> Le(x.value, w)
  }

  // The copies are comparable, and those at a fork's path are no newer than the fork.
  predicate Tame(k: Cast, x: Slots, y: Slots) {
    && Ordered(x.a, y.a) && Ordered(x.b, y.b)
    && (Conflict(x, y) ==>
          var w := y.main.value;
          if w.writer == k.a then Below(x.a, w) && Below(y.a, w) else Below(x.b, w) && Below(y.b, w))
  }

  predicate WellSlotted(k: Cast, x: Slots) {
    && (x.main.Some? ==> x.main.value.writer in {k.a, k.b})
    && (x.a.Some? ==> x.a.value.writer == k.a) && (x.b.Some? ==> x.b.value.writer == k.b)
    && InRange(x.main) && InRange(x.a) && InRange(x.b)
  }

  // Far from any wrap-around.
  predicate InRange(v: Option<Version>) {
    v.Some? ==> v.value.i < 100 && v.value.j < 100
  }

  ghost function Counts(k: Cast, i: nat, j: nat): Clock
    requires i < 100 && j < 100
  {
    var a: Clock, b: Clock := if i > 0 then map[k.a := i] else map[], if j > 0 then map[k.b := j] else map[];
    a + b
  }

  ghost predicate IsCount(k: Cast, c: Clock, i: nat, j: nat) {
    && (forall n :: Get(c, n) == if n == k.a then i else if n == k.b then j else 0)
    && c.Keys == (if i > 0 then {k.a} else {}) + (if j > 0 then {k.b} else {})
  }

  lemma CountsCount(k: Cast, i: nat, j: nat)
    requires k.Valid() && i < 100 && j < 100
    ensures IsCount(k, Counts(k, i, j), i, j)
  {
  }

  lemma CountIs(k: Cast, c: Clock, i: nat, j: nat)
    requires k.Valid() && i < 100 && j < 100 && IsCount(k, c, i, j)
    ensures c == Counts(k, i, j)
  {
    CountsCount(k, i, j);
    SameClocks(c, Counts(k, i, j));
  }

  lemma CountsOrder(k: Cast, i: nat, j: nat, m: nat, n: nat)
    requires k.Valid() && i < 100 && j < 100 && m < 100 && n < 100
    ensures Leq(Counts(k, i, j), Counts(k, m, n)) <==> i <= m && j <= n
  {
    CountsCount(k, i, j);
    CountsCount(k, m, n);
    var c, d := Counts(k, i, j), Counts(k, m, n);
    assert Get(c, k.a) == i && Get(c, k.b) == j && Get(d, k.a) == m && Get(d, k.b) == n;
  }

  lemma CountsJoin(k: Cast, i: nat, j: nat, m: nat, n: nat)
    requires k.Valid() && i < 100 && j < 100 && m < 100 && n < 100
    ensures Join(Counts(k, i, j), Counts(k, m, n)) == Counts(k, Max2(i, m), Max2(j, n))
  {
    CountsCount(k, i, j);
    CountsCount(k, m, n);
    JoinIsLub(Counts(k, i, j), Counts(k, m, n));
    CountIs(k, Join(Counts(k, i, j), Counts(k, m, n)), Max2(i, m), Max2(j, n));
  }

  lemma CountsStep(k: Cast, i: nat, j: nat)
    requires k.Valid() && i < 99 && j < 99
    ensures Incremented(Counts(k, i, j), k.a) == Counts(k, i + 1, j)
    ensures Incremented(Counts(k, i, j), k.b) == Counts(k, i, j + 1)
  {
    CountsCount(k, i, j);
    CountIs(k, Incremented(Counts(k, i, j), k.a), i + 1, j);
    CountIs(k, Incremented(Counts(k, i, j), k.b), i, j + 1);
  }

  ghost function Real(k: Cast, v: Version): FileEntry
    requires v.i < 100 && v.j < 100
  {
    k.Version(v.writer, v.hashes, Counts(k, v.i, v.j))
  }

  // The slot that r stands for.
  ghost function SlotAt(k: Cast, x: Slots, r: string): Option<Version> {
    if r == k.path then x.main
    else if r == ConflictPath(k.path, k.a) then x.a
    else if r == ConflictPath(k.path, k.b) then x.b
    else None
  }

  ghost function EntryAt(k: Cast, x: Slots, r: string): FileEntry
    requires WellSlotted(k, x) && SlotAt(k, x, r).Some?
  {
    Real(k, SlotAt(k, x, r).value).(path := r)
  }

  ghost function StoreOf(k: Cast, x: Slots): Store
    requires WellSlotted(k, x)
  {
    map r | r in {k.path, ConflictPath(k.path, k.a), ConflictPath(k.path, k.b)} && SlotAt(k, x, r).Some? :: EntryAt(k, x, r)
  }

  lemma SlotPaths(k: Cast)
    requires k.Valid()
    ensures k.path != ConflictPath(k.path, k.a) && k.path != ConflictPath(k.path, k.b)
    ensures ConflictPath(k.path, k.a) != ConflictPath(k.path, k.b)
  {
    ConflictPathLonger(k.path, k.a);
    ConflictPathLonger(k.path, k.b);
    if ConflictPath(k.path, k.a) == ConflictPath(k.path, k.b) { ConflictPathInjectiveInWriter(k.path, k.a, k.b); }
  }

  lemma StoreAt(k: Cast, x: Slots, r: string)
    requires k.Valid() && WellSlotted(k, x)
    ensures r in StoreOf(k, x) <==> SlotAt(k, x, r).Some?
    ensures r in StoreOf(k, x) ==> StoreOf(k, x)[r] == EntryAt(k, x, r) && StoreOf(k, x)[r].path == r
  {
  }

  lemma SlotInRange(k: Cast, x: Slots, r: string)
    requires WellSlotted(k, x) && SlotAt(k, x, r).Some?
    ensures SlotAt(k, x, r).value.i < 100 && SlotAt(k, x, r).value.j < 100
  {
  }

  lemma NewerAt(k: Cast, x: Slots, y: Slots, r: string)
    requires k.Valid() && WellSlotted(k, x) && WellSlotted(k, y) && SlotAt(k, x, r).Some? && SlotAt(k, y, r).Some?
    ensures Leq(EntryAt(k, x, r).clock, EntryAt(k, y, r).clock) <==> Le(SlotAt(k, x, r).value, SlotAt(k, y, r).value)
  {
    SlotInRange(k, x, r);
    SlotInRange(k, y, r);
    var v, w := SlotAt(k, x, r).value, SlotAt(k, y, r).value;
    CountsOrder(k, v.i, v.j, w.i, w.j);
  }

  // ---------- A session side, computed ----------

  lemma SidesComparable(k: Cast, x: Slots, y: Slots, r: string)
    requires k.Valid() && WellSlotted(k, x) && WellSlotted(k, y) && Tame(k, x, y)
    requires r in StoreOf(k, x) && r in StoreOf(k, y) && !(Conflict(x, y) && r == k.path)
    ensures Comparable(StoreOf(k, x)[r].clock, StoreOf(k, y)[r].clock)
  {
    StoreAt(k, x, r);
    StoreAt(k, y, r);
    NewerAt(k, x, y, r);
    NewerAt(k, y, x, r);
  }

  lemma NewerOfAt(k: Cast, x: Slots, y: Slots, r: string)
    requires k.Valid() && WellSlotted(k, x) && WellSlotted(k, y)
    ensures var z, n := NewerOf(StoreOf(k, x), StoreOf(k, y)), Newer(SlotAt(k, x, r), SlotAt(k, y, r));
        (r in z <==> n.Some?) && (r in z ==> InRange(n) && z[r] == Real(k, n.value).(path := r))
  {
    StoreAt(k, x, r);
    StoreAt(k, y, r);
    if SlotAt(k, x, r).Some? { SlotInRange(k, x, r); }
    if SlotAt(k, y, r).Some? { SlotInRange(k, y, r); }
    if SlotAt(k, x, r).Some? && SlotAt(k, y, r).Some? { NewerAt(k, y, x, r); }
  }

  lemma KeyedStore(k: Cast, x: Slots)
    requires k.Valid() && WellSlotted(k, x)
    ensures Keyed(StoreOf(k, x))
  {
    forall r | r in StoreOf(k, x)
      ensures StoreOf(k, x)[r].path == r
    {
      StoreAt(k, x, r);
    }
  }

  lemma QuietSide(k: Cast, x: Slots, y: Slots, ms: seq<FileEntry>)
    requires k.Valid() && WellSlotted(k, x) && WellSlotted(k, y) && Tame(k, x, y) && !Conflict(x, y)
    requires Elems(ms) == Entries(StoreOf(k, y))
    ensures WellSlotted(k, Side(k, x, y)) && MergeAll(StoreOf(k, x), ms) == StoreOf(k, Side(k, x, y))
  {
    var s, t, z := StoreOf(k, x), StoreOf(k, y), Side(k, x, y);
    KeyedStore(k, x);
    KeyedStore(k, y);
    forall r | r in s && r in t
      ensures Comparable(s[r].clock, t[r].clock)
    {
      SidesComparable(k, x, y, r);
    }
    MergeAllComparable(s, t, ms);
    forall r
      ensures AgreeAt(NewerOf(s, t), StoreOf(k, z), r)
    {
      QuietSideAt(k, x, y, r);
    }
    SameEverywhere(NewerOf(s, t), StoreOf(k, z));
  }

  lemma SlotOfSide(k: Cast, x: Slots, y: Slots, r: string)
    requires k.Valid() && WellSlotted(k, x) && WellSlotted(k, y)
    ensures WellSlotted(k, Side(k, x, y))
    ensures SlotAt(k, Side(k, x, y), r) ==
        if Conflict(x, y) && r == k.path then Side(k, x, y).main
        else if Conflict(x, y) && r == ConflictPath(k.path, y.main.value.writer) then y.main
        else Newer(SlotAt(k, x, r), SlotAt(k, y, r))
  {
    SlotPaths(k);
  }

  lemma QuietSideAt(k: Cast, x: Slots, y: Slots, r: string)
    requires k.Valid() && WellSlotted(k, x) && WellSlotted(k, y) && !Conflict(x, y)
    ensures WellSlotted(k, Side(k, x, y))
    ensures AgreeAt(NewerOf(StoreOf(k, x), StoreOf(k, y)), StoreOf(k, Side(k, x, y)), r)
  {
    SlotOfSide(k, x, y, r);
    NewerOfAt(k, x, y, r);
    StoreAt(k, Side(k, x, y), r);
  }

  // The two versions that conflict, and the copy that the conflict makes.
  lemma ConflictingVersions(k: Cast, x: Slots, y: Slots)
    requires k.Valid() && WellSlotted(k, x) && WellSlotted(k, y) && Tame(k, x, y) && Conflict(x, y)
    ensures var s, t := StoreOf(k, x), StoreOf(k, y);
        && OneConflict(s, t, k.path)
        && t[k.path] == Real(k, y.main.value) && s[k.path] == Real(k, x.main.value)
  {
    var s, t := StoreOf(k, x), StoreOf(k, y);
    KeyedStore(k, x);
    KeyedStore(k, y);
    StoreAt(k, x, k.path);
    StoreAt(k, y, k.path);
    NewerAt(k, x, y, k.path);
    NewerAt(k, y, x, k.path);
    forall r | r != k.path && r in s && r in t
      ensures Comparable(s[r].clock, t[r].clock)
    {
      SidesComparable(k, x, y, r);
    }
    CopiesBelow(k, x, y.main.value, x, y);
    CopiesBelow(k, y, y.main.value, x, y);
  }

  lemma CopiesBelow(k: Cast, z: Slots, w: Version, x: Slots, y: Slots)
    requires k.Valid() && WellSlotted(k, z) && (z == x || z == y) && Conflict(x, y) && Tame(k, x, y)
    requires w == y.main.value && InRange(Some(w)) && w.writer in {k.a, k.b}
    ensures var q := ForkOf(Real(k, w)).path; q in StoreOf(k, z) ==> Leq(StoreOf(k, z)[q].clock, Real(k, w).clock)
  {
    var q := ForkOf(Real(k, w)).path;
    SlotPaths(k);
    StoreAt(k, z, q);
    if SlotAt(k, z, q).Some? {
      var v := SlotAt(k, z, q).value;
      SlotInRange(k, z, q);
      CountsOrder(k, v.i, v.j, w.i, w.j);
    }
  }

  lemma ConflictSideAt(k: Cast, x: Slots, y: Slots, n: Store, m: FileEntry, e: FileEntry, r: string)
    requires k.Valid() && WellSlotted(k, x) && WellSlotted(k, y) && Conflict(x, y)
    requires n == NewerOf(StoreOf(k, x), StoreOf(k, y)) && m == Real(k, y.main.value)
    requires e == Real(k, Side(k, x, y).main.value)
    ensures WellSlotted(k, Side(k, x, y)) && AgreeAt(WithFork(n, m, e), StoreOf(k, Side(k, x, y)), r)
  {
    SlotOfSide(k, x, y, r);
    StoreAt(k, Side(k, x, y), r);
    ConflictPathLonger(k.path, m.lastWriter);
    if r != k.path && r != ForkOf(m).path { NewerOfAt(k, x, y, r); }
  }

  lemma JoinedIsReal(k: Cast, x: Slots, y: Slots)
    requires k.Valid() && WellSlotted(k, x) && WellSlotted(k, y) && Conflict(x, y)
    ensures k.path in StoreOf(k, x) && k.path in StoreOf(k, y)
    ensures Joined(StoreOf(k, x), StoreOf(k, y), k.path) == Real(k, Side(k, x, y).main.value)
  {
    var v, w := x.main.value, y.main.value;
    StoreAt(k, x, k.path);
    StoreAt(k, y, k.path);
    CountsJoin(k, v.i, v.j, w.i, w.j);
  }

  lemma ConflictResult(k: Cast, x: Slots, y: Slots)
    requires k.Valid() && WellSlotted(k, x) && WellSlotted(k, y) && Conflict(x, y)
    ensures WellSlotted(k, Side(k, x, y))
    ensures WithFork(NewerOf(StoreOf(k, x), StoreOf(k, y)), Real(k, y.main.value), Real(k, Side(k, x, y).main.value))
        == StoreOf(k, Side(k, x, y))
  {
    var n, m, e := NewerOf(StoreOf(k, x), StoreOf(k, y)), Real(k, y.main.value), Real(k, Side(k, x, y).main.value);
    ConflictSideAt(k, x, y, n, m, e, k.path);
    forall r
      ensures AgreeAt(WithFork(n, m, e), StoreOf(k, Side(k, x, y)), r)
    {
      ConflictSideAt(k, x, y, n, m, e, r);
    }
    SameEverywhere(WithFork(n, m, e), StoreOf(k, Side(k, x, y)));
  }

  lemma ConflictSide(k: Cast, x: Slots, y: Slots, ms: seq<FileEntry>)
    requires k.Valid() && WellSlotted(k, x) && WellSlotted(k, y) && Tame(k, x, y) && Conflict(x, y)
    requires Elems(ms) == Entries(StoreOf(k, y))
    ensures WellSlotted(k, Side(k, x, y)) && MergeAll(StoreOf(k, x), ms) == StoreOf(k, Side(k, x, y))
  {
    ConflictingVersions(k, x, y);
    MergeAllWithConflict(StoreOf(k, x), StoreOf(k, y), k.path, ms);
    JoinedIsReal(k, x, y);
    ConflictResult(k, x, y);
  }

  lemma SideIsMerge(k: Cast, x: Slots, y: Slots, ms: seq<FileEntry>)
    requires k.Valid() && WellSlotted(k, x) && WellSlotted(k, y) && Tame(k, x, y) && Elems(ms) == Entries(StoreOf(k, y))
    ensures WellSlotted(k, Side(k, x, y)) && MergeAll(StoreOf(k, x), ms) == StoreOf(k, Side(k, x, y))
  {
    if Conflict(x, y) { ConflictSide(k, x, y, ms); } else { QuietSide(k, x, y, ms); }
  }

  // ---------- The three nodes, computed ----------

  datatype Trio = Trio(a: Slots, b: Slots, c: Slots)

  const EMPTY: Slots := Slots(None, None, None)

  predicate WellFormedTrio(k: Cast, x: Trio) {
    WellSlotted(k, x.a) && WellSlotted(k, x.b) && WellSlotted(k, x.c)
  }

  ghost predicate Shows(k: Cast, s: System, x: Trio) {
    k.Valid() && WellFormedTrio(k, x) && s.stores == k.Stores(StoreOf(k, x.a), StoreOf(k, x.b), StoreOf(k, x.c))
  }

  function Write(k: Cast, node: string, hashes: seq<Digest>): Event {
    Edit(k.Edited(node, hashes))
  }

  function CountOf(v: Option<Version>): (nat, nat) {
    match v
    case Some(x) => (x.i, x.j)
    case None => (0, 0)
  }

  // a or b writes.
  function WrittenBy(k: Cast, x: Slots, node: string, hashes: seq<Digest>): Slots {
    var (i, j) := CountOf(x.main);
    x.(main := Some(if node == k.a then Version(node, hashes, i + 1, j) else Version(node, hashes, i, j + 1)))
  }

  lemma WriteIsPut(k: Cast, x: Slots, node: string, hashes: seq<Digest>)
    requires k.Valid() && WellSlotted(k, x) && node in {k.a, k.b}
    requires CountOf(x.main).0 < 99 && CountOf(x.main).1 < 99
    ensures WellSlotted(k, WrittenBy(k, x, node, hashes))
    ensures var s := StoreOf(k, x);
        && Get(ClockAt(s, k.path), node) + 1 < TWO64
        && StoreAfter(s, k.Edited(node, hashes)) == StoreOf(k, WrittenBy(k, x, node, hashes))
  {
    var s, y := StoreOf(k, x), WrittenBy(k, x, node, hashes);
    var (i, j) := CountOf(x.main);
    StoreAt(k, x, k.path);
    ClockOfMain(k, x);
    CountsStep(k, i, j);
    CountsCount(k, i, j);
    ReplacedMain(k, x, y);
  }

  lemma ReplacedMain(k: Cast, x: Slots, y: Slots)
    requires k.Valid() && WellSlotted(k, x) && WellSlotted(k, y) && y.main.Some? && y == x.(main := y.main)
    ensures StoreOf(k, x)[k.path := Real(k, y.main.value)] == StoreOf(k, y)
  {
    var u := StoreOf(k, x)[k.path := Real(k, y.main.value)];
    forall r
      ensures AgreeAt(u, StoreOf(k, y), r)
    {
      SlotPaths(k);
      StoreAt(k, x, r);
      StoreAt(k, y, r);
    }
    SameEverywhere(u, StoreOf(k, y));
  }

  lemma ClockOfMain(k: Cast, x: Slots)
    requires k.Valid() && WellSlotted(k, x)
    ensures CountOf(x.main).0 < 100 && CountOf(x.main).1 < 100
    ensures ClockAt(StoreOf(k, x), k.path) == Counts(k, CountOf(x.main).0, CountOf(x.main).1)
  {
    StoreAt(k, x, k.path);
  }

  lemma WriteAtA(k: Cast, s: System, x: Trio, hashes: seq<Digest>, t: System)
    requires Shows(k, s, x) && CountOf(x.a.main).0 < 99 && CountOf(x.a.main).1 < 99
    ensures Enabled(s, k.Edited(k.a, hashes))
    ensures Follows(s, Write(k, k.a, hashes), t) ==> Shows(k, t, x.(a := WrittenBy(k, x.a, k.a, hashes)))
  {
    WriteIsPut(k, x.a, k.a, hashes);
    StoresAt(k, StoreOf(k, x.a), StoreOf(k, x.b), StoreOf(k, x.c));
    StoresUpdate(k, StoreOf(k, x.a), StoreOf(k, x.b), StoreOf(k, x.c), StoreOf(k, WrittenBy(k, x.a, k.a, hashes)));
  }

  lemma WriteAtB(k: Cast, s: System, x: Trio, hashes: seq<Digest>, t: System)
    requires Shows(k, s, x) && CountOf(x.b.main).0 < 99 && CountOf(x.b.main).1 < 99
    ensures Enabled(s, k.Edited(k.b, hashes))
    ensures Follows(s, Write(k, k.b, hashes), t) ==> Shows(k, t, x.(b := WrittenBy(k, x.b, k.b, hashes)))
  {
    WriteIsPut(k, x.b, k.b, hashes);
    StoresAt(k, StoreOf(k, x.a), StoreOf(k, x.b), StoreOf(k, x.c));
    StoresUpdate(k, StoreOf(k, x.a), StoreOf(k, x.b), StoreOf(k, x.c), StoreOf(k, WrittenBy(k, x.b, k.b, hashes)));
  }

  predicate TameBoth(k: Cast, x: Slots, y: Slots) {
    Tame(k, x, y) && Tame(k, y, x)
  }

  lemma SessionSides(k: Cast, s: System, t: System, i: string, j: string, x: Slots, y: Slots)
    requires k.Valid() && Meets(s, t, i, j) && i in s.stores && j in s.stores && WellSlotted(k, x) && WellSlotted(k, y)
    requires s.stores[i] == StoreOf(k, x) && s.stores[j] == StoreOf(k, y) && TameBoth(k, x, y)
    ensures WellSlotted(k, Side(k, x, y)) && WellSlotted(k, Side(k, y, x))
    ensures t.stores == s.stores[i := StoreOf(k, Side(k, x, y))][j := StoreOf(k, Side(k, y, x))]
  {
    var la, lb :| Lists(s, i, j, la, lb) && t == Session(s, i, j, la, lb);
    SideIsMerge(k, x, y, lb);
    SideIsMerge(k, y, x, la);
  }

  lemma MeetBC(k: Cast, s: System, x: Trio, t: System)
    requires Shows(k, s, x) && TameBoth(k, x.b, x.c) && Follows(s, Meet(k.b, k.c), t)
    ensures Shows(k, t, Trio(x.a, Side(k, x.b, x.c), Side(k, x.c, x.b)))
  {
    var a, b, c := StoreOf(k, x.a), StoreOf(k, x.b), StoreOf(k, x.c);
    StoresAt(k, a, b, c);
    SessionSides(k, s, t, k.b, k.c, x.b, x.c);
    StoresUpdate(k, a, b, c, StoreOf(k, Side(k, x.b, x.c)));
    StoresUpdate(k, a, StoreOf(k, Side(k, x.b, x.c)), c, StoreOf(k, Side(k, x.c, x.b)));
  }

  lemma MeetAC(k: Cast, s: System, x: Trio, t: System)
    requires Shows(k, s, x) && TameBoth(k, x.a, x.c) && Follows(s, Meet(k.a, k.c), t)
    ensures Shows(k, t, Trio(Side(k, x.a, x.c), x.b, Side(k, x.c, x.a)))
  {
    var a, b, c := StoreOf(k, x.a), StoreOf(k, x.b), StoreOf(k, x.c);
    StoresAt(k, a, b, c);
    SessionSides(k, s, t, k.a, k.c, x.a, x.c);
    StoresUpdate(k, a, b, c, StoreOf(k, Side(k, x.a, x.c)));
    StoresUpdate(k, StoreOf(k, Side(k, x.a, x.c)), b, c, StoreOf(k, Side(k, x.c, x.a)));
  }

  lemma MeetAB(k: Cast, s: System, x: Trio, t: System)
    requires Shows(k, s, x) && TameBoth(k, x.a, x.b) && Follows(s, Meet(k.a, k.b), t)
    ensures Shows(k, t, Trio(Side(k, x.a, x.b), Side(k, x.b, x.a), x.c))
  {
    var a, b, c := StoreOf(k, x.a), StoreOf(k, x.b), StoreOf(k, x.c);
    StoresAt(k, a, b, c);
    SessionSides(k, s, t, k.a, k.b, x.a, x.b);
    StoresUpdate(k, a, b, c, StoreOf(k, Side(k, x.a, x.b)));
    StoresUpdate(k, StoreOf(k, Side(k, x.a, x.b)), b, c, StoreOf(k, Side(k, x.b, x.a)));
  }

  // ---------- The history ----------

  function LosingHistory(k: Cast, p: seq<Digest>, q: seq<Digest>): seq<Event> {
    [Write(k, k.a, p), Write(k, k.b, p), Meet(k.b, k.c), Meet(k.a, k.c), Write(k, k.a, p), Write(k, k.b, q),
     Meet(k.b, k.c), Meet(k.a, k.c), Meet(k.a, k.b), Meet(k.a, k.c)]
  }

  function ByA(k: Cast, h: seq<Digest>, i: nat, j: nat): Option<Version> {
    Some(Version(k.a, h, i, j))
  }

  function ByB(k: Cast, h: seq<Digest>, i: nat, j: nat): Option<Version> {
    Some(Version(k.b, h, i, j))
  }

  // The stores after n events.
  function TrioAt(k: Cast, p: seq<Digest>, q: seq<Digest>, n: nat): Trio {
    match n
    case 0 => Trio(EMPTY, EMPTY, EMPTY)
    case 1 => Trio(Slots(ByA(k, p, 1, 0), None, None), EMPTY, EMPTY)
    case 2 => Trio(Slots(ByA(k, p, 1, 0), None, None), Slots(ByB(k, p, 0, 1), None, None), EMPTY)
    case 3 => Trio(Slots(ByA(k, p, 1, 0), None, None), Slots(ByB(k, p, 0, 1), None, None), Slots(ByB(k, p, 0, 1), None, None))
    case 4 => Trio(Slots(ByA(k, p, 1, 1), None, ByB(k, p, 0, 1)), Slots(ByB(k, p, 0, 1), None, None),
                   Slots(ByB(k, p, 1, 1), ByA(k, p, 1, 0), None))
    case 5 => Trio(Slots(ByA(k, p, 2, 1), None, ByB(k, p, 0, 1)), Slots(ByB(k, p, 0, 1), None, None),
                   Slots(ByB(k, p, 1, 1), ByA(k, p, 1, 0), None))
    case 6 => Trio(Slots(ByA(k, p, 2, 1), None, ByB(k, p, 0, 1)), Slots(ByB(k, q, 0, 2), None, None),
                   Slots(ByB(k, p, 1, 1), ByA(k, p, 1, 0), None))
    case 7 => Trio(Slots(ByA(k, p, 2, 1), None, ByB(k, p, 0, 1)), Slots(ByB(k, q, 1, 2), ByA(k, p, 1, 0), ByB(k, p, 1, 1)),
                   Slots(ByB(k, p, 1, 2), ByA(k, p, 1, 0), ByB(k, q, 0, 2)))
    case 8 => Trio(Slots(ByA(k, p, 2, 2), ByA(k, p, 1, 0), ByB(k, p, 1, 2)), Slots(ByB(k, q, 1, 2), ByA(k, p, 1, 0), ByB(k, p, 1, 1)),
                   Slots(ByB(k, p, 2, 2), ByA(k, p, 2, 1), ByB(k, q, 0, 2)))
    case 9 => Trio(Slots(ByA(k, p, 2, 2), ByA(k, p, 1, 0), ByB(k, p, 1, 2)), Slots(ByA(k, p, 2, 2), ByA(k, p, 1, 0), ByB(k, p, 1, 2)),
                   Slots(ByB(k, p, 2, 2), ByA(k, p, 2, 1), ByB(k, q, 0, 2)))
    case _ => Trio(Slots(ByA(k, p, 2, 2), ByA(k, p, 2, 1), ByB(k, p, 1, 2)), Slots(ByA(k, p, 2, 2), ByA(k, p, 1, 0), ByB(k, p, 1, 2)),
                   Slots(ByB(k, p, 2, 2), ByA(k, p, 2, 1), ByB(k, p, 1, 2)))
  }

  // The abstract effect of each edit ...
  lemma WritesCompute(k: Cast, p: seq<Digest>, q: seq<Digest>, n: nat)
    requires k.Valid() && n in {0, 1, 4, 5}
    ensures var x, y, h := TrioAt(k, p, q, n), TrioAt(k, p, q, n + 1), if n == 5 then q else p;
        && (n in {0, 4} ==> (LosingHistory(k, p, q)[n] == Write(k, k.a, h) && InRange(x.a.main)
              && y == x.(a := WrittenBy(k, x.a, k.a, h)) && CountOf(x.a.main).0 < 99 && CountOf(x.a.main).1 < 99))
        && (n in {1, 5} ==> (LosingHistory(k, p, q)[n] == Write(k, k.b, h) && InRange(x.b.main)
              && y == x.(b := WrittenBy(k, x.b, k.b, h)) && CountOf(x.b.main).0 < 99 && CountOf(x.b.main).1 < 99))
  {
  }

  // ... and of each session, which is as simple as required.
  lemma SessionsCompute(k: Cast, p: seq<Digest>, q: seq<Digest>, n: nat)
    requires k.Valid() && n in {2, 3, 6, 7, 8, 9}
    ensures var x, y := TrioAt(k, p, q, n), TrioAt(k, p, q, n + 1);
        && (n in {2, 6} ==> (LosingHistory(k, p, q)[n] == Meet(k.b, k.c) && TameBoth(k, x.b, x.c)
              && y == Trio(x.a, Side(k, x.b, x.c), Side(k, x.c, x.b))))
        && (n in {3, 7, 9} ==> (LosingHistory(k, p, q)[n] == Meet(k.a, k.c) && TameBoth(k, x.a, x.c)
              && y == Trio(Side(k, x.a, x.c), x.b, Side(k, x.c, x.a))))
        && (n == 8 ==> (LosingHistory(k, p, q)[n] == Meet(k.a, k.b) && TameBoth(k, x.a, x.b)
              && y == Trio(Side(k, x.a, x.b), Side(k, x.b, x.a), x.c)))
  {
  }

  // One event, from any state that shows x.
  lemma WriteShows(k: Cast, p: seq<Digest>, q: seq<Digest>, n: nat, s: System, t: System, x: Trio)
    requires n in {0, 1, 4, 5} && x == TrioAt(k, p, q, n) && Shows(k, s, x) && Follows(s, LosingHistory(k, p, q)[n], t)
    ensures Shows(k, t, TrioAt(k, p, q, n + 1))
  {
    WritesCompute(k, p, q, n);
    if n in {0, 4} {
      WriteAtA(k, s, x, p, t);
    } else {
      WriteAtB(k, s, x, if n == 1 then p else q, t);
    }
  }

  lemma MeetShows(k: Cast, p: seq<Digest>, q: seq<Digest>, n: nat, s: System, t: System, x: Trio)
    requires n in {2, 3, 6, 7, 8, 9} && x == TrioAt(k, p, q, n) && Shows(k, s, x) && Follows(s, LosingHistory(k, p, q)[n], t)
    ensures Shows(k, t, TrioAt(k, p, q, n + 1))
  {
    SessionsCompute(k, p, q, n);
    if n in {2, 6} {
      MeetBC(k, s, x, t);
    } else if n in {3, 7, 9} {
      MeetAC(k, s, x, t);
    } else {
      MeetAB(k, s, x, t);
    }
  }

  lemma EventShows(k: Cast, p: seq<Digest>, q: seq<Digest>, n: nat, s: System, t: System)
    requires n < 10 && Shows(k, s, TrioAt(k, p, q, n)) && Follows(s, LosingHistory(k, p, q)[n], t)
    ensures Shows(k, t, TrioAt(k, p, q, n + 1))
  {
    var x := TrioAt(k, p, q, n);
    if n in {0, 1, 4, 5} { WriteShows(k, p, q, n, s, t, x); } else { MeetShows(k, p, q, n, s, t, x); }
  }

  lemma StartShows(k: Cast)
    requires k.Valid()
    ensures Shows(k, Init(k.nodes), Trio(EMPTY, EMPTY, EMPTY))
  {
    var none: Store := map[];
    assert StoreOf(k, EMPTY) == none;
    assert k.Stores(none, none, none) == k.Idle();
  }

  lemma {:induction false} HistoryShows(k: Cast, p: seq<Digest>, q: seq<Digest>, states: seq<System>, n: nat)
    requires k.Valid() && IsHistory(k.nodes, LosingHistory(k, p, q), states) && n <= 10
    ensures Shows(k, states[n], TrioAt(k, p, q, n))
  {
    if n == 0 {
      StartShows(k);
    } else {
      HistoryShows(k, p, q, states, n - 1);
      assert Follows(states[n - 1], LosingHistory(k, p, q)[n - 1], states[n - 1 + 1]);
      EventShows(k, p, q, n - 1, states[n - 1], states[n]);
    }
  }

  predicate Lacks(v: Option<Version>, q: seq<Digest>) {
    v.Some? ==> v.value.hashes != q
  }

  lemma SlotsWithout(k: Cast, x: Slots, q: seq<Digest>)
    requires k.Valid() && WellSlotted(k, x)
    requires Lacks(x.main, q) && Lacks(x.a, q) && Lacks(x.b, q)
    ensures Without(StoreOf(k, x), q)
  {
    forall r | r in StoreOf(k, x)
      ensures StoreOf(k, x)[r].chunkHashes != q
    {
      StoreAt(k, x, r);
    }
  }

  // With three nodes, whoever they are, whatever other nodes there are and whatever is written: edits and
  // complete sessions, whose manifests list their entries in any order, lose the last edit. After the ten
  // events of this history its content is on no node.
  lemma SessionsAloneCanLose(k: Cast, p: seq<Digest>, q: seq<Digest>, states: seq<System>)
    requires k.Valid() && p != q && IsHistory(k.nodes, LosingHistory(k, p, q), states)
    ensures forall i | i in states[10].stores :: Without(states[10].stores[i], q)
  {
    HistoryShows(k, p, q, states, 10);
    var x := TrioAt(k, p, q, 10);
    SlotsWithout(k, x.a, q);
    SlotsWithout(k, x.b, q);
    SlotsWithout(k, x.c, q);
    Nowhere(k, StoreOf(k, x.a), StoreOf(k, x.b), StoreOf(k, x.c), q);
  }

  lemma EventPossible(k: Cast, p: seq<Digest>, q: seq<Digest>, n: nat, s: System) returns (t: System)
    requires n < 10 && Shows(k, s, TrioAt(k, p, q, n))
    ensures Follows(s, LosingHistory(k, p, q)[n], t)
  {
    var x := TrioAt(k, p, q, n);
    StoresAt(k, StoreOf(k, x.a), StoreOf(k, x.b), StoreOf(k, x.c));
    match LosingHistory(k, p, q)[n] {
      case Edit(act) =>
        t := Apply(s, act);
        if n in {0, 4} { WriteAtA(k, s, x, p, t); } else { WriteAtB(k, s, x, if n == 1 then p else q, t); }
      case Meet(i, j) =>
        t := SessionInKeyOrder(s, i, j);
    }
  }

  lemma SessionInKeyOrder(s: System, i: string, j: string) returns (t: System)
    requires i in s.stores && j in s.stores
    ensures Meets(s, t, i, j)
  {
    var la, lb := Manifests.AllEntries(s.stores[i]), Manifests.AllEntries(s.stores[j]);
    O.ManifestLists(s.stores[i]);
    O.ManifestLists(s.stores[j]);
    t := Session(s, i, j, la, lb);
    assert Lists(s, i, j, la, lb);
  }

  ghost predicate IsStart(nodes: set<string>, events: seq<Event>, states: seq<System>, n: nat) {
    && n <= |events| && |states| == n + 1 && states[0] == Init(nodes)
    && forall m | 0 <= m < n :: Follows(states[m], events[m], states[m + 1])
  }

  lemma {:induction false} StartPossible(k: Cast, p: seq<Digest>, q: seq<Digest>, n: nat) returns (states: seq<System>)
    requires k.Valid() && n <= 10
    ensures IsStart(k.nodes, LosingHistory(k, p, q), states, n) && Shows(k, states[n], TrioAt(k, p, q, n))
  {
    if n == 0 {
      StartShows(k);
      states := [Init(k.nodes)];
    } else {
      var before := StartPossible(k, p, q, n - 1);
      var t := EventPossible(k, p, q, n - 1, before[n - 1]);
      EventShows(k, p, q, n - 1, before[n - 1], t);
      states := before + [t];
    }
  }

  // There is such a history: the one whose manifests are in key order, for instance.
  lemma LosingHistoryExists(k: Cast, p: seq<Digest>, q: seq<Digest>) returns (states: seq<System>)
    requires k.Valid()
    ensures IsHistory(k.nodes, LosingHistory(k, p, q), states)
  {
    states := StartPossible(k, p, q, 10);
  }
}
