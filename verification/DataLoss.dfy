// How far "no data is ever silently lost" goes. One merge: when it drops a content, and when it drops a
// version whose clock nothing left behind dominates. Whole runs: the content of an edit that nothing
// supersedes always stays readable somewhere exactly when there are at most two nodes.
module DataLoss {
  import opened Basics
  import opened VectorClocks
  import opened ConflictPaths
  import opened CrdtStores
  import opened MergeOrder
  import opened Replication
  import opened Causality
  import opened Survival
  import T = TwoNodes
  import Q = Quiescence

  // ---------- One merge ----------

  // A merge changes the content at r exactly when it adopts, or forks onto r, something else.
  lemma MergeReplacesExactly(s: Store, m: FileEntry, r: string)
    requires Keyed(s) && r in s
    ensures r in Merged(s, m)
    ensures !SameVersion(Merged(s, m)[r], s[r]) <==>
            || (Verdict(s, m).AppliedRemote? && r == m.path && !SameVersion(m, s[r]))
            || (Verdict(s, m).ConflictForked? && r == ForkOf(m).path && !SameVersion(ForkOf(m), s[r]))
  {
    MergeMeaning(s, m);
    ConflictPathLonger(m.path, m.lastWriter);
  }

  // The content at r is still there, or the clock at r dominates the one that was there. A clock says
  // nothing about content here: a conflict raises the local clock without taking the content in.
  ghost predicate CoveredAt(s: Store, t: Store, r: string)
    requires r in s
  {
    r in t && (SameVersion(t[r], s[r]) || Leq(s[r].clock, t[r].clock))
  }

  // That fails in one case only: a fork onto an r that holds something else with a clock not below.
  lemma MergeUncoversExactly(s: Store, m: FileEntry, r: string)
    requires Keyed(s) && r in s
    ensures !CoveredAt(s, Merged(s, m), r) <==>
            Verdict(s, m).ConflictForked? && r == ForkOf(m).path && !SameVersion(ForkOf(m), s[r]) && !Leq(s[r].clock, m.clock)
  {
    MergeMeaning(s, m);
    ConflictPathLonger(m.path, m.lastWriter);
  }

  // ---------- The run ----------

  // Any three of any number of nodes, and any path that users edit.
  datatype Cast = Cast(nodes: set<string>, a: string, b: string, c: string, path: string)
  {
    ghost predicate Valid() {
      {a, b, c} <= nodes && a != b && a != c && b != c && UserPath(nodes, path)
    }

    function Edited(node: string, hashes: seq<Digest>): Action {
      Put(node, path, hashes, ZERO_DIGEST, 0)
    }

    function Version(node: string, hashes: seq<Digest>, clock: Clock): FileEntry {
      FileEntry(path, hashes, ZERO_DIGEST, clock, node, false, 0)
    }

    ghost function Idle(): map<string, Store> {
      map n | n in nodes :: map[]
    }

    // Three nodes hold these stores; nothing has happened at any other.
    ghost function Stores(x: Store, y: Store, z: Store): map<string, Store> {
      Idle()[a := x][b := y][c := z]
    }

    function Only(e: FileEntry): Store {
      map[path := e]
    }
  }

  lemma Updates<K, V>(s: map<K, V>, a: K, b: K, c: K, x: V, y: V, z: V, v: V)
    requires a != b && a != c && b != c
    ensures s[a := x][b := y][c := z][a := v] == s[a := v][b := y][c := z]
    ensures s[a := x][b := y][c := z][b := v] == s[a := x][b := v][c := z]
    ensures s[a := x][b := y][c := z][c := v] == s[a := x][b := y][c := v]
  {
  }

  lemma StoresUpdate(k: Cast, x: Store, y: Store, z: Store, v: Store)
    requires k.Valid()
    ensures k.Stores(x, y, z)[k.a := v] == k.Stores(v, y, z)
    ensures k.Stores(x, y, z)[k.b := v] == k.Stores(x, v, z)
    ensures k.Stores(x, y, z)[k.c := v] == k.Stores(x, y, v)
  {
    Updates(k.Idle(), k.a, k.b, k.c, x, y, z, v);
  }

  lemma StoresAt(k: Cast, x: Store, y: Store, z: Store)
    requires k.Valid()
    ensures k.a in k.Stores(x, y, z) && k.Stores(x, y, z)[k.a] == x
    ensures k.b in k.Stores(x, y, z) && k.Stores(x, y, z)[k.b] == y
    ensures k.c in k.Stores(x, y, z) && k.Stores(x, y, z)[k.c] == z
  {
  }

  ghost predicate MarkedAt(path: string, i: nat) {
    i + |MARK| <= |path| && path[i..i + |MARK|] == MARK
  }

  // What users have to keep to: no fork can land on a path that does not contain the conflict mark.
  lemma UnmarkedPathIsUserPath(nodes: set<string>, path: string)
    requires forall i: nat :: !MarkedAt(path, i)
    ensures UserPath(nodes, path)
  {
    forall p, n | n in nodes
      ensures ConflictPath(p, n) != path
    {
      assert MarkedAt(ConflictPath(p, n), match LastDot(p) case None => |p| case Some(dot) => dot);
    }
  }

  // In particular a path shorter than the mark.
  lemma ShortPathIsUserPath(nodes: set<string>, path: string)
    requires |path| < |MARK|
    ensures UserPath(nodes, path)
  {
    UnmarkedPathIsUserPath(nodes, path);
  }

  // acts lead to s, where the three nodes hold these stores.
  ghost predicate Holds(k: Cast, acts: seq<Action>, s: System, x: Store, y: Store, z: Store) {
    k.Valid() && Q.Reaches(k.nodes, acts, s) && s.stores == k.Stores(x, y, z)
  }

  lemma Then(k: Cast, acts: seq<Action>, s: System, act: Action) returns (s': System)
    requires Q.Reaches(k.nodes, acts, s) && T.TwoStep(s, k.nodes, act)
    ensures Q.Reaches(k.nodes, acts + [act], s') && s' == Apply(s, act)
  {
    assert (acts + [act])[..|acts|] == acts;
    s' := Apply(s, act);
  }

  lemma Edits(k: Cast, acts: seq<Action>, s: System, node: string, mine: Store, hashes: seq<Digest>, e: FileEntry)
      returns (s': System)
    requires k.Valid() && Q.Reaches(k.nodes, acts, s) && node in s.stores && s.stores[node] == mine
    requires Get(ClockAt(mine, k.path), node) + 1 < TWO64
    requires e == k.Version(node, hashes, Incremented(ClockAt(mine, k.path), node))
    ensures Q.Reaches(k.nodes, acts + [k.Edited(node, hashes)], s') && s'.stores == s.stores[node := mine[k.path := e]]
  {
    s' := Then(k, acts, s, k.Edited(node, hashes));
  }

  function Trip(from: string, to: string, e: FileEntry): seq<Action> {
    [Send(from), Deliver(to, Packet(from, e))]
  }

  // One entry travels from one node to another.
  lemma Travels(k: Cast, acts: seq<Action>, s: System, from: string, to: string, r: string, e: FileEntry, theirs: Store)
      returns (s': System)
    requires Q.Reaches(k.nodes, acts, s) && from in s.stores && to in s.stores && s.stores[to] == theirs
    requires r in s.stores[from] && s.stores[from][r] == e
    ensures Q.Reaches(k.nodes, acts + Trip(from, to, e), s') && s'.stores == s.stores[to := Merged(theirs, e)]
  {
    var sent := Then(k, acts, s, Send(from));
    assert sent.stores == s.stores;
    assert Packet(from, e) in Manifest(from, s.stores[from]);
    s' := Then(k, acts + [Send(from)], sent, Deliver(to, Packet(from, e)));
    assert acts + [Send(from)] + [Deliver(to, Packet(from, e))] == acts + Trip(from, to, e);
  }

  lemma Conflicts(k: Cast, s: Store, m: FileEntry, e: FileEntry, n: string, l: string)
    requires m.path == k.path && k.path in s
    requires Get(s[k.path].clock, n) > Get(m.clock, n) && Get(m.clock, l) > Get(s[k.path].clock, l)
    requires e == s[k.path].(clock := Join(s[k.path].clock, m.clock))
    ensures Merged(s, m) == WithFork(s, m, e)
  {
    ConflictPathLonger(m.path, m.lastWriter);
  }

  lemma Adopts(s: Store, m: FileEntry, r: string)
    requires m.path == r && (r in s ==> Leq(s[r].clock, m.clock) && !Leq(m.clock, s[r].clock))
    ensures Merged(s, m) == s[r := m]
  {
  }


  lemma Clocks(k: Cast)
    requires k.Valid()
    ensures var a1, b1, a2, b2 := map[k.a := 1], map[k.b := 1], map[k.a := 2], map[k.b := 2];
        var v1 := Join(b1, a1);
        var v2 := Join(v1, b2);
        && Incremented(a1, k.a) == a2 && Incremented(b1, k.b) == b2 && Incremented(map[], k.a) == a1 && Incremented(map[], k.b) == b1
        && Get(b1, k.b) > Get(a1, k.b) && Get(a1, k.a) > Get(b1, k.a)
        && Get(v1, k.a) > Get(b2, k.a) && Get(b2, k.b) > Get(v1, k.b)
        && Leq(b2, v2) && !Leq(v2, b2)
        && Get(a2, k.a) > Get(v2, k.a) && Get(v2, k.b) > Get(a2, k.b)
  {
    var v2 := Join(Join(map[k.b := 1], map[k.a := 1]), map[k.b := 2]);
    assert Get(v2, k.a) == 1 && Get(v2, k.b) == 2;
  }

  // a and b edit; c adopts b's version and then meets a's.
  lemma Beginning(k: Cast, p: seq<Digest>, w1: FileEntry, v: FileEntry, v1: FileEntry) returns (acts: seq<Action>, s: System)
    requires k.Valid()
    requires w1 == k.Version(k.a, p, map[k.a := 1]) && v == k.Version(k.b, p, map[k.b := 1])
    requires v1 == v.(clock := Join(v.clock, w1.clock))
    ensures Holds(k, acts, s, k.Only(w1), k.Only(v), WithFork(k.Only(v), w1, v1))
  {
    var none: Store := map[];
    Clocks(k);
    acts, s := [], Init(k.nodes);
    assert k.Stores(none, none, none) == k.Idle();
    StoresAt(k, none, none, none);
    s := Edits(k, acts, s, k.a, none, p, w1);
    acts := acts + [k.Edited(k.a, p)];
    StoresUpdate(k, none, none, none, k.Only(w1));
    StoresAt(k, k.Only(w1), none, none);
    s := Edits(k, acts, s, k.b, none, p, v);
    acts := acts + [k.Edited(k.b, p)];
    StoresUpdate(k, k.Only(w1), none, none, k.Only(v));
    acts, s := Meeting(k, acts, s, w1, v, v1);
  }

  lemma Meeting(k: Cast, acts: seq<Action>, s: System, w1: FileEntry, v: FileEntry, v1: FileEntry)
      returns (acts': seq<Action>, s': System)
    requires w1.path == v.path == k.path && w1.clock == map[k.a := 1] && v.clock == map[k.b := 1]
    requires v1 == v.(clock := Join(v.clock, w1.clock)) && Holds(k, acts, s, k.Only(w1), k.Only(v), map[])
    ensures Holds(k, acts', s', k.Only(w1), k.Only(v), WithFork(k.Only(v), w1, v1))
  {
    var a, b, none := k.Only(w1), k.Only(v), map[];
    StoresAt(k, a, b, none);
    Adopts(none, v, k.path);
    s' := Travels(k, acts, s, k.b, k.c, k.path, v, none);
    StoresUpdate(k, a, b, none, k.Only(v));
    StoresAt(k, a, b, k.Only(v));
    Clocks(k);
    Conflicts(k, k.Only(v), w1, v1, k.b, k.a);
    s' := Travels(k, acts + Trip(k.b, k.c, v), s', k.a, k.c, k.path, w1, k.Only(v));
    StoresUpdate(k, a, b, k.Only(v), WithFork(k.Only(v), w1, v1));
    acts' := acts + Trip(k.b, k.c, v) + Trip(k.a, k.c, w1);
  }

  // a and b edit again, b last of all.
  lemma LastEdits(k: Cast, acts: seq<Action>, s: System, p: seq<Digest>, q: seq<Digest>, w1: FileEntry, v: FileEntry,
                  w2: FileEntry, x: FileEntry, c: Store)
      returns (before: seq<Action>, s': System)
    requires w1.clock == map[k.a := 1] && v.clock == map[k.b := 1]
    requires w2 == k.Version(k.a, p, map[k.a := 2]) && x == k.Version(k.b, q, map[k.b := 2])
    requires Holds(k, acts, s, k.Only(w1), k.Only(v), c)
    ensures Holds(k, before + [k.Edited(k.b, q)], s', k.Only(w2), k.Only(x), c)
  {
    Clocks(k);
    StoresAt(k, k.Only(w1), k.Only(v), c);
    s' := Edits(k, acts, s, k.a, k.Only(w1), p, w2);
    before := acts + [k.Edited(k.a, p)];
    assert k.Only(w1)[k.path := w2] == k.Only(w2) && k.Only(v)[k.path := x] == k.Only(x);
    StoresUpdate(k, k.Only(w1), k.Only(v), c, k.Only(w2));
    StoresAt(k, k.Only(w2), k.Only(v), c);
    s' := Edits(k, before, s', k.b, k.Only(v), q, x);
    StoresUpdate(k, k.Only(w2), k.Only(v), c, k.Only(x));
  }

  // c keeps a copy of x.
  lemma CopyTaken(k: Cast, acts: seq<Action>, s: System, a: Store, c: Store, x: FileEntry, v1: FileEntry, v2: FileEntry)
      returns (s': System)
    requires x.path == v1.path == k.path && k.path in c && c[k.path] == v1 && v2 == v1.(clock := Join(v1.clock, x.clock))
    requires x.clock == map[k.b := 2] && v1.clock == Join(map[k.b := 1], map[k.a := 1])
    requires Holds(k, acts, s, a, k.Only(x), c)
    ensures Holds(k, acts + Trip(k.b, k.c, x), s', a, k.Only(x), WithFork(c, x, v2))
  {
    Clocks(k);
    StoresAt(k, a, k.Only(x), c);
    Conflicts(k, c, x, v2, k.a, k.b);
    s' := Travels(k, acts, s, k.b, k.c, k.path, x, c);
    StoresUpdate(k, a, k.Only(x), c, WithFork(c, x, v2));
  }

  // Its own version then looks newer to b, which gives up x for it.
  lemma FirstLoss(k: Cast, acts: seq<Action>, s: System, a: Store, c: Store, x: FileEntry, v2: FileEntry)
      returns (s': System)
    requires x.path == v2.path == k.path && k.path in c && c[k.path] == v2
    requires x.clock == map[k.b := 2] && v2.clock == Join(Join(map[k.b := 1], map[k.a := 1]), x.clock)
    requires Holds(k, acts, s, a, k.Only(x), c)
    ensures Holds(k, acts + Trip(k.c, k.b, v2), s', a, k.Only(v2), c)
  {
    Clocks(k);
    StoresAt(k, a, k.Only(x), c);
    Adopts(k.Only(x), v2, k.path);
    assert k.Only(x)[k.path := v2] == k.Only(v2);
    s' := Travels(k, acts, s, k.c, k.b, k.path, v2, k.Only(x));
    StoresUpdate(k, a, k.Only(x), c, k.Only(v2));
  }

  // a keeps a copy of c's version, which looks newer than c's copy of x and replaces it.
  lemma SecondLoss(k: Cast, acts: seq<Action>, s: System, b: Store, c: Store, w2: FileEntry, w3: FileEntry, v2: FileEntry)
      returns (s': System)
    requires w2.path == v2.path == k.path && w3 == w2.(clock := Join(w2.clock, v2.clock)) && w2.clock == map[k.a := 2]
    requires v2.clock == Join(Join(map[k.b := 1], map[k.a := 1]), map[k.b := 2]) && k.path in c && c[k.path] == v2
    requires var r := ForkOf(v2).path; r in c && c[r].clock == map[k.b := 2]
    requires Holds(k, acts, s, k.Only(w2), b, c)
    ensures Holds(k, acts + Trip(k.c, k.a, v2) + Trip(k.a, k.c, ForkOf(v2)), s',
                  WithFork(k.Only(w2), v2, w3), b, c[ForkOf(v2).path := ForkOf(v2)])
  {
    var a', r := WithFork(k.Only(w2), v2, w3), ForkOf(v2).path;
    Clocks(k);
    ConflictPathLonger(k.path, v2.lastWriter);
    StoresAt(k, k.Only(w2), b, c);
    Conflicts(k, k.Only(w2), v2, w3, k.a, k.b);
    s' := Travels(k, acts, s, k.c, k.a, k.path, v2, k.Only(w2));
    StoresUpdate(k, k.Only(w2), b, c, a');
    StoresAt(k, a', b, c);
    Adopts(c, ForkOf(v2), r);
    s' := Travels(k, acts + Trip(k.c, k.a, v2), s', k.a, k.c, r, ForkOf(v2), c);
    StoresUpdate(k, a', b, c, c[r := ForkOf(v2)]);
  }

  ghost predicate Without(s: Store, q: seq<Digest>) {
    forall r | r in s :: s[r].chunkHashes != q
  }

  // The later copy lands on the copy of x.
  lemma NothingLeft(k: Cast, w1: FileEntry, v: FileEntry, x: FileEntry, v1: FileEntry, v2: FileEntry, w2: FileEntry, w3: FileEntry,
                    q: seq<Digest>)
    requires x.path == v2.path == w1.path == k.path && x.lastWriter == v2.lastWriter
    requires w1.chunkHashes != q && v.chunkHashes != q && v1.chunkHashes != q && v2.chunkHashes != q
    requires w2.chunkHashes != q && w3.chunkHashes != q
    ensures Without(WithFork(k.Only(w2), v2, w3), q) && Without(k.Only(v2), q)
    ensures Without(WithFork(WithFork(k.Only(v), w1, v1), x, v2)[ForkOf(v2).path := ForkOf(v2)], q)
  {
    assert ForkOf(v2).path == ForkOf(x).path;
  }

  lemma Nowhere(k: Cast, x: Store, y: Store, z: Store, q: seq<Digest>)
    requires k.Valid() && Without(x, q) && Without(y, q) && Without(z, q)
    ensures forall i | i in k.Stores(x, y, z) :: Without(k.Stores(x, y, z)[i], q)
  {
  }

  lemma NoEdits(t: seq<Action>, u: seq<Action>, v: seq<Action>, w: seq<Action>, acts: seq<Action>) returns (after: seq<Action>)
    requires forall y | y in t || y in u || y in v || y in w :: !IsEdit(y)
    ensures after == t + u + v + w && acts + t + u + v + w == acts + after
    ensures forall y | y in after :: !IsEdit(y)
  {
    after := t + u + v + w;
  }

  // c keeps a copy of x, and b gives x up.
  lemma TakenOver(k: Cast, acts: seq<Action>, s: System, a: Store, c: Store, x: FileEntry, v1: FileEntry, v2: FileEntry)
      returns (s': System)
    requires x.path == v1.path == k.path && k.path in c && c[k.path] == v1 && v2 == v1.(clock := Join(v1.clock, x.clock))
    requires x.clock == map[k.b := 2] && v1.clock == Join(map[k.b := 1], map[k.a := 1])
    requires Holds(k, acts, s, a, k.Only(x), c)
    ensures Holds(k, acts + Trip(k.b, k.c, x) + Trip(k.c, k.b, v2), s', a, k.Only(v2), WithFork(c, x, v2))
  {
    s' := CopyTaken(k, acts, s, a, c, x, v1, v2);
    s' := FirstLoss(k, acts + Trip(k.b, k.c, x), s', a, WithFork(c, x, v2), x, v2);
  }

  lemma CopyAtFork(k: Cast, c: Store, x: FileEntry, v2: FileEntry)
    requires x.path == v2.path == k.path && x.lastWriter == v2.lastWriter
    ensures var r := ForkOf(v2).path;
        r in WithFork(c, x, v2) && WithFork(c, x, v2)[r].clock == x.clock && WithFork(c, x, v2)[k.path] == v2
  {
    ConflictPathLonger(k.path, x.lastWriter);
  }

  lemma Ending(k: Cast, acts: seq<Action>, s: System, c: Store, w2: FileEntry, x: FileEntry, v1: FileEntry, v2: FileEntry,
               w3: FileEntry)
      returns (after: seq<Action>, t: System)
    requires w2.path == x.path == v1.path == k.path && v1.lastWriter == x.lastWriter
    requires w2.clock == map[k.a := 2] && x.clock == map[k.b := 2] && v1.clock == Join(map[k.b := 1], map[k.a := 1])
    requires v2 == v1.(clock := Join(v1.clock, x.clock)) && w3 == w2.(clock := Join(w2.clock, v2.clock))
    requires k.path in c && c[k.path] == v1 && Holds(k, acts, s, k.Only(w2), k.Only(x), c)
    ensures forall y | y in after :: !IsEdit(y)
    ensures Holds(k, acts + after, t, WithFork(k.Only(w2), v2, w3), k.Only(v2), WithFork(c, x, v2)[ForkOf(v2).path := ForkOf(v2)])
  {
    t := TakenOver(k, acts, s, k.Only(w2), c, x, v1, v2);
    CopyAtFork(k, c, x, v2);
    t := SecondLoss(k, acts + Trip(k.b, k.c, x) + Trip(k.c, k.b, v2), t, k.Only(v2), WithFork(c, x, v2), w2, w3, v2);
    after := NoEdits(Trip(k.b, k.c, x), Trip(k.c, k.b, v2), Trip(k.c, k.a, v2), Trip(k.a, k.c, ForkOf(v2)), acts);
  }

  // With three nodes, whoever they are, whatever other nodes there are and whatever is written: there is
  // a run whose last edit leaves no trace of its content on any node. Nothing is edited after it, so
  // nothing was ever based on it.
  lemma LastEditCanVanish(k: Cast, p: seq<Digest>, q: seq<Digest>)
      returns (before: seq<Action>, after: seq<Action>, t: System)
    requires k.Valid() && p != q
    ensures var acts := before + [k.Edited(k.b, q)] + after;
        IsRun(k.nodes, acts) && T.UserEdits(k.nodes, acts) && Final(k.nodes, acts) == t
    ensures forall y | y in after :: !IsEdit(y)
    ensures forall i | i in t.stores :: Without(t.stores[i], q)
  {
    var w1, v := k.Version(k.a, p, map[k.a := 1]), k.Version(k.b, p, map[k.b := 1]);
    var w2, x := k.Version(k.a, p, map[k.a := 2]), k.Version(k.b, q, map[k.b := 2]);
    var v1 := v.(clock := Join(v.clock, w1.clock));
    var v2 := v1.(clock := Join(v1.clock, x.clock));
    var w3 := w2.(clock := Join(w2.clock, v2.clock));
    var c := WithFork(k.Only(v), w1, v1);
    var acts, s := Beginning(k, p, w1, v, v1);
    before, s := LastEdits(k, acts, s, p, q, w1, v, w2, x, c);
    after, t := Ending(k, before + [k.Edited(k.b, q)], s, c, w2, x, v1, v2, w3);
    NothingLeft(k, w1, v, x, v1, v2, w2, w3, q);
    Nowhere(k, WithFork(k.Only(w2), v2, w3), k.Only(v2), WithFork(c, x, v2)[ForkOf(v2).path := ForkOf(v2)], q);
  }

  // ---------- The condition ----------

  ghost predicate AllKept(o: Observed) {
    forall e | 0 <= e < |o.log| && Unsuperseded(o.log, e) :: KeptSomewhere(o.sys, o.log[e].entry)
  }

  // In every run of these nodes with edits on user paths, the content of every edit that no later edit
  // was based on can be read somewhere.
  ghost predicate NeverLoses(nodes: set<string>) {
    forall acts, seens | ObservedUserRun(nodes, acts, seens) :: AllKept(ObservedFinal(nodes, acts, seens))
  }

  // The last edit of a run is the last one in the log.
  lemma {:induction false} LastLogged(nodes: set<string>, acts: seq<Action>, seens: seq<set<nat>>, n: nat)
    requires IsObservedRun(nodes, acts, seens) && n < |acts| && acts[n].Put? && forall i | n < i < |acts| :: !IsEdit(acts[i])
    ensures var log := ObservedFinal(nodes, acts, seens).log;
        log != [] && log[|log| - 1].entry.chunkHashes == acts[n].hashes
    decreases |acts|
  {
    var k := |acts| - 1;
    var o := ObservedFinal(nodes, acts[..k], seens[..k]);
    if n < k {
      LastLogged(nodes, acts[..k], seens[..k], n);
      assert Observe(o, acts[k], seens[k]).log == o.log;
    }
  }

  lemma {:induction false} LoggedOnUserPaths(nodes: set<string>, acts: seq<Action>, seens: seq<set<nat>>)
    requires ObservedUserRun(nodes, acts, seens)
    ensures LogOnUserPaths(ObservedFinal(nodes, acts, seens).log, nodes)
  {
    if acts != [] {
      RunBefore(nodes, acts, seens);
      LoggedOnUserPaths(nodes, acts[..|acts| - 1], seens[..|acts| - 1]);
    }
  }

  // Nobody has built on the newest edit yet.
  lemma NewestIsUnsuperseded(o: Observed, nodes: set<string>)
    requires CausalInv(o, nodes) && LogOnUserPaths(o.log, nodes) && o.log != []
    ensures Unsuperseded(o.log, |o.log| - 1)
  {
    var e := |o.log| - 1;
    forall f | 0 <= f < |o.log| && e in o.log[f].seen
      ensures f == e
    {
      assert LogFaithful(o.log, f);
    }
  }

  lemma NotReadable(s: System, v: FileEntry)
    requires forall i | i in s.stores :: Without(s.stores[i], v.chunkHashes)
    ensures !KeptSomewhere(s, v)
  {
  }

  // The newest edit wrote q, and q is nowhere.
  ghost predicate Lost(o: Observed, q: seq<Digest>) {
    && o.log != [] && o.log[|o.log| - 1].entry.chunkHashes == q
    && forall i | i in o.sys.stores :: Without(o.sys.stores[i], q)
  }

  // After such a run, watched.
  lemma LossObserved(k: Cast, q: seq<Digest>) returns (acts: seq<Action>, seens: seq<set<nat>>)
    requires k.Valid() && q != []
    ensures ObservedUserRun(k.nodes, acts, seens) && Lost(ObservedFinal(k.nodes, acts, seens), q)
  {
    var before, after, t := LastEditCanVanish(k, [], q);
    acts := before + [k.Edited(k.b, q)] + after;
    seens := EveryRunObserved(k.nodes, acts);
    assert acts[|before|] == k.Edited(k.b, q);
    assert forall i | |before| < i < |acts| :: acts[i] in after;
    LastLogged(k.nodes, acts, seens, |before|);
  }

  lemma LossIsLoss(o: Observed, nodes: set<string>, q: seq<Digest>)
    requires CausalInv(o, nodes) && LogOnUserPaths(o.log, nodes) && Lost(o, q)
    ensures !AllKept(o)
  {
    NewestIsUnsuperseded(o, nodes);
    NotReadable(o.sys, o.log[|o.log| - 1].entry);
  }

  lemma RunFacts(nodes: set<string>, acts: seq<Action>, seens: seq<set<nat>>, o: Observed)
    requires ObservedUserRun(nodes, acts, seens) && o == ObservedFinal(nodes, acts, seens)
    ensures CausalInv(o, nodes) && LogOnUserPaths(o.log, nodes)
  {
    LoggedOnUserPaths(nodes, acts, seens);
    CausalInvHolds(nodes, acts, seens);
  }

  lemma Refutes(nodes: set<string>, acts: seq<Action>, seens: seq<set<nat>>)
    requires ObservedUserRun(nodes, acts, seens) && !AllKept(ObservedFinal(nodes, acts, seens))
    ensures !NeverLoses(nodes)
  {
  }

  lemma CanLose(k: Cast, q: seq<Digest>)
    requires k.Valid() && q != []
    ensures !NeverLoses(k.nodes)
  {
    var acts, seens := LossObserved(k, q);
    var o := ObservedFinal(k.nodes, acts, seens);
    RunFacts(k.nodes, acts, seens, o);
    LossIsLoss(o, k.nodes, q);
    Refutes(k.nodes, acts, seens);
  }

  lemma ThreeCanLose(nodes: set<string>, a: string, b: string, c: string)
    requires {a, b, c} <= nodes && a != b && a != c && b != c
    ensures !NeverLoses(nodes)
  {
    ShortPathIsUserPath(nodes, "f");
    var d: Digest := seq(32, i => 0);
    CanLose(Cast(nodes, a, b, c, "f"), [d]);
  }

  lemma TwoNeverLose(nodes: set<string>, a: string, b: string)
    requires nodes == {a, b} && DotFree(a) && DotFree(b)
    ensures NeverLoses(nodes)
  {
    forall acts, seens | ObservedUserRun(nodes, acts, seens)
      ensures AllKept(ObservedFinal(nodes, acts, seens))
    {
      var o := ObservedFinal(nodes, acts, seens);
      forall e | 0 <= e < |o.log| && Unsuperseded(o.log, e)
        ensures KeptSomewhere(o.sys, o.log[e].entry)
      {
        if a == b {
          assert nodes == {a};
          AloneKeeps(a, acts, seens, e);
        } else {
          UnsupersededEditKept(nodes, a, b, acts, seens, e);
        }
      }
    }
  }

  lemma NobodyNeverLoses()
    ensures NeverLoses({})
  {
    forall acts, seens | ObservedUserRun({}, acts, seens)
      ensures acts == []
    {
      if acts != [] {
        RunBefore({}, acts, seens);
        var k := |acts| - 1;
        CausalInvHolds({}, acts[..k], seens[..k]);
      }
    }
  }

  // Exactly when the promise holds.
  lemma LosesNothingExactly(nodes: set<string>)
    requires forall n | n in nodes :: DotFree(n)
    ensures NeverLoses(nodes) <==> |nodes| <= 2
  {
    if nodes == {} {
      NobodyNeverLoses();
    } else {
      var a :| a in nodes;
      var others := nodes - {a};
      if others == {} {
        assert nodes == {a} == {a, a};
        TwoNeverLose(nodes, a, a);
      } else {
        var b :| b in others;
        var rest := others - {b};
        assert nodes == {a, b} + rest;
        if rest == {} {
          TwoNeverLose(nodes, a, b);
        } else {
          var c :| c in rest;
          ThreeCanLose(nodes, a, b, c);
        }
      }
    }
  }
}
