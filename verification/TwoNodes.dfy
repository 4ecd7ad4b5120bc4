// Two nodes: conflicts arise only between edits of different writers, conflict copies never conflict
// again, and whatever is overwritten gives way to a greater clock.
module TwoNodes {
  import opened Basics
  import opened VectorClocks
  import opened ConflictPaths
  import opened CrdtStores
  import opened Replication

  ghost predicate Pair(nodes: set<string>, a: string, b: string) {
    nodes == {a, b} && a != b && DotFree(a) && DotFree(b)
  }

  ghost function Other(a: string, b: string, i: string): string {
    if i == a then b else a
  }

  // Every edit of the run is on a path that is not itself a conflict path.
  ghost predicate UserEdits(nodes: set<string>, acts: seq<Action>) {
    forall a | a in acts && IsEdit(a) :: UserPath(nodes, a.path)
  }

  // ---------- The invariant ----------

  // A stored or sent version of a user path that the holder did not write itself is, unaltered, one
  // that its writer sent.
  ghost predicate Genuine(s: System, holder: string, e: FileEntry) {
    e.lastWriter == holder || Packet(e.lastWriter, e) in s.sent
  }

  // e is a conflict copy of what its writer sent for path p, and the other node knows of it.
  ghost predicate CopyOf(s: System, p: string, w: string, rival: string, e: FileEntry)
    requires rival in s.stores
  {
    && e.lastWriter == w
    && Packet(w, e.(path := p)) in s.sent
    && p in s.stores[rival] && Leq(e.clock, s.stores[rival][p].clock)
  }

  // The manifest entries of a path that left one node form a causal chain.
  ghost predicate SentOk(s: System) {
    && (forall k | k in s.sent ::
          && k.from in s.stores && k.entry.path in s.stores[k.from]
          && Leq(k.entry.clock, s.stores[k.from][k.entry.path].clock)
          && Chained(k.entry, s.stores[k.from][k.entry.path]))
    && (forall k, l {:trigger Chained(k.entry, l.entry)} | k in s.sent && l in s.sent && k.from == l.from && k.entry.path == l.entry.path ::
          Chained(k.entry, l.entry))
  }

  ghost predicate UserOk(s: System, nodes: set<string>) {
    && (forall i, p {:trigger Genuine(s, i, s.stores[i][p])} | i in s.stores && p in s.stores[i] && UserPath(nodes, p) ::
          Genuine(s, i, s.stores[i][p]))
    && (forall k {:trigger Genuine(s, k.from, k.entry)} | k in s.sent && UserPath(nodes, k.entry.path) ::
          Genuine(s, k.from, k.entry))
  }

  // Each path in use is a user path or the conflict path of one.
  ghost predicate KnownPath(nodes: set<string>, r: string) {
    UserPath(nodes, r) || exists p, w | UserPath(nodes, p) && w in nodes :: ConflictPath(p, w) == r
  }

  ghost predicate PathsOk(s: System, nodes: set<string>) {
    && (forall i, r {:trigger KnownPath(nodes, r), r in s.stores[i]} | i in s.stores && r in s.stores[i] :: KnownPath(nodes, r))
    && (forall k {:trigger KnownPath(nodes, k.entry.path)} | k in s.sent :: KnownPath(nodes, k.entry.path))
  }

  ghost predicate CopiesOk(s: System, nodes: set<string>, a: string, b: string)
    requires a in s.stores && b in s.stores
  {
    && (forall i, p, w {:trigger CopyOf(s, p, w, Other(a, b, w), s.stores[i][ConflictPath(p, w)])}
          | i in s.stores && UserPath(nodes, p) && w in nodes && ConflictPath(p, w) in s.stores[i] ::
          CopyOf(s, p, w, Other(a, b, w), s.stores[i][ConflictPath(p, w)]))
    && (forall k, p, w {:trigger CopyOf(s, p, w, Other(a, b, w), k.entry)}
          | k in s.sent && UserPath(nodes, p) && w in nodes && k.entry.path == ConflictPath(p, w) ::
          CopyOf(s, p, w, Other(a, b, w), k.entry))
  }

  ghost predicate TwoInv(s: System, nodes: set<string>, a: string, b: string) {
    && Pair(nodes, a, b)
    && WellFormed(s, nodes)
    && SentOk(s) && UserOk(s, nodes) && PathsOk(s, nodes) && CopiesOk(s, nodes, a, b)
  }

  // ---------- Growth ----------

  ghost predicate Older(x: FileEntry, y: FileEntry) {
    Leq(x.clock, y.clock) && !Leq(y.clock, x.clock)
  }

  // Whatever t replaced, it replaced by something with a greater clock.
  ghost predicate StoreGrows(s: Store, t: Store) {
    forall r | r in s :: r in t && (t[r] == s[r] || Older(s[r], t[r]))
  }

  ghost predicate Grows(s: System, t: System) {
    && t.stores.Keys == s.stores.Keys
    && (forall i | i in s.stores :: StoreGrows(s.stores[i], t.stores[i]))
  }

  lemma ChainedGrows(k: FileEntry, x: FileEntry, y: FileEntry)
    requires Leq(k.clock, x.clock) && Chained(k, x) && (y == x || Older(x, y))
    ensures Leq(k.clock, y.clock) && Chained(k, y)
  {
    if y != x {
      LeqTransitive(k.clock, x.clock, y.clock);
      if Leq(y.clock, k.clock) { LeqTransitive(y.clock, k.clock, x.clock); }
    }
  }

  lemma SentOkGrows(s: System, t: System)
    requires SentOk(s) && Grows(s, t) && t.sent == s.sent
    ensures SentOk(t)
  {
    forall k | k in t.sent
      ensures k.from in t.stores && k.entry.path in t.stores[k.from]
      ensures Leq(k.entry.clock, t.stores[k.from][k.entry.path].clock)
      ensures Chained(k.entry, t.stores[k.from][k.entry.path])
    {
      assert StoreGrows(s.stores[k.from], t.stores[k.from]);
      ChainedGrows(k.entry, s.stores[k.from][k.entry.path], t.stores[k.from][k.entry.path]);
    }
  }

  lemma CopyOfGrows(s: System, t: System, p: string, w: string, rival: string, e: FileEntry)
    requires Grows(s, t) && s.sent <= t.sent && rival in s.stores && CopyOf(s, p, w, rival, e)
    ensures CopyOf(t, p, w, rival, e)
  {
    assert StoreGrows(s.stores[rival], t.stores[rival]);
    if t.stores[rival][p] != s.stores[rival][p] {
      LeqTransitive(e.clock, s.stores[rival][p].clock, t.stores[rival][p].clock);
    }
  }

  // ---------- Conflicts ----------

  // Two conflict copies at one path are copies of one node's chain of versions.
  lemma CopiesComparable(s: System, p: string, w: string, rival: string, e: FileEntry, f: FileEntry)
    requires SentOk(s) && rival in s.stores && e.path == f.path
    requires CopyOf(s, p, w, rival, e) && CopyOf(s, p, w, rival, f)
    ensures Chained(e, f)
  {
    var k, l := Packet(w, e.(path := p)), Packet(w, f.(path := p));
    assert Chained(k.entry, l.entry);
    assert e == k.entry.(path := e.path) && f == l.entry.(path := f.path);
  }

  // A conflict is always between the two writers' own versions of a user path; the copy it leaves
  // behind has a greater clock than whatever copy it overwrites.
  lemma ConflictFacts(s: System, nodes: set<string>, a: string, b: string, i: string, k: Packet)
    requires TwoInv(s, nodes, a, b) && i in nodes && k in s.sent
    requires Verdict(s.stores[i], k.entry).ConflictForked?
    ensures UserPath(nodes, k.entry.path)
    ensures s.stores[i][k.entry.path].lastWriter == i
    ensures k.from == k.entry.lastWriter == Other(a, b, i)
    ensures var q := ForkOf(k.entry).path; q in s.stores[i] ==> Older(s.stores[i][q], ForkOf(k.entry))
  {
    var m, e := k.entry, s.stores[i][k.entry.path];
    var j := Other(a, b, i);
    assert !Comparable(e.clock, m.clock);
    assert KnownPath(nodes, m.path);
    if !UserPath(nodes, m.path) {
      var p, w :| UserPath(nodes, p) && w in nodes && ConflictPath(p, w) == m.path;
      CopiesComparable(s, p, w, Other(a, b, w), e, m);
      assert false;
    }
    assert Genuine(s, i, e) && Genuine(s, k.from, m);
    assert k.from == j;
    assert m.lastWriter == j;
    assert Packet(j, e) in s.sent ==> Chained(e, m);
    assert e.lastWriter == i;
    var q := ForkOf(m).path;
    if q in s.stores[i] {
      var f := s.stores[i][q];
      assert CopyOf(s, m.path, j, Other(a, b, j), f);
      assert Chained(Packet(j, f.(path := m.path)).entry, k.entry);
      if Leq(m.clock, f.clock) { LeqTransitive(m.clock, f.clock, e.clock); }
    }
  }

  lemma DeliverGrows(s: System, nodes: set<string>, a: string, b: string, i: string, k: Packet)
    requires TwoInv(s, nodes, a, b) && i in nodes && k in s.sent
    ensures StoreGrows(s.stores[i], Merged(s.stores[i], k.entry))
  {
    var mine := s.stores[i];
    MergeMeaning(mine, k.entry);
    if Verdict(mine, k.entry).ConflictForked? {
      ConflictFacts(s, nodes, a, b, i, k);
      JoinIsLub(mine[k.entry.path].clock, k.entry.clock);
      var e, j := mine[k.entry.path], Merged(mine, k.entry)[k.entry.path];
      assert Same(j.clock, Join(e.clock, k.entry.clock));
      if Leq(j.clock, e.clock) { LeqTransitive(k.entry.clock, j.clock, e.clock); }
    }
  }

  lemma EditGrows(s: Store, a: Action)
    requires IsEdit(a) && Get(ClockAt(s, a.path), a.node) + 1 < TWO64
    ensures StoreGrows(s, StoreAfter(s, a))
  {
    IncrementAdvances(ClockAt(s, a.path), a.node);
  }

  ghost predicate TwoStep(s: System, nodes: set<string>, a: Action) {
    Enabled(s, a) && (IsEdit(a) ==> UserPath(nodes, a.path))
  }

  lemma StepGrows(s: System, nodes: set<string>, a: string, b: string, act: Action)
    requires TwoInv(s, nodes, a, b) && TwoStep(s, nodes, act)
    ensures Grows(s, Apply(s, act))
  {
    if IsEdit(act) {
      EditGrows(s.stores[act.node], act);
    } else if act.Deliver? {
      DeliverGrows(s, nodes, a, b, act.node, act.packet);
    }
  }

  // ---------- Preservation ----------

  lemma EditKeepsTwoInv(s: System, nodes: set<string>, a: string, b: string, act: Action)
    requires TwoInv(s, nodes, a, b) && TwoStep(s, nodes, act) && IsEdit(act)
    ensures TwoInv(Apply(s, act), nodes, a, b)
  {
    var t := Apply(s, act);
    StepWellFormed(s, nodes, act);
    StepGrows(s, nodes, a, b, act);
    SentOkGrows(s, t);
    CopiesGrow(s, t, nodes, a, b);
    GenuineSent(s, t, nodes);
    forall i, p | i in t.stores && p in t.stores[i] && UserPath(nodes, p)
      ensures Genuine(t, i, t.stores[i][p])
    {
      if (i, p) != (act.node, act.path) { assert Genuine(s, i, s.stores[i][p]); }
    }
    EditKeepsPaths(s, nodes, act);
    EditKeepsCopies(s, nodes, a, b, act);
  }

  lemma GenuineSent(s: System, t: System, nodes: set<string>)
    requires UserOk(s, nodes) && t.sent == s.sent
    ensures forall k | k in t.sent && UserPath(nodes, k.entry.path) :: Genuine(t, k.from, k.entry)
  {
    forall k | k in t.sent && UserPath(nodes, k.entry.path)
      ensures Genuine(t, k.from, k.entry)
    {
      assert Genuine(s, k.from, k.entry);
    }
  }

  lemma EditKeepsPaths(s: System, nodes: set<string>, act: Action)
    requires PathsOk(s, nodes) && TwoStep(s, nodes, act) && IsEdit(act)
    ensures PathsOk(Apply(s, act), nodes)
  {
    var t := Apply(s, act);
    forall i, r | i in t.stores && r in t.stores[i]
      ensures KnownPath(nodes, r)
    {
      if (i, r) != (act.node, act.path) { assert r in s.stores[i]; }
    }
  }

  lemma EditKeepsCopies(s: System, nodes: set<string>, a: string, b: string, act: Action)
    requires TwoInv(s, nodes, a, b) && TwoStep(s, nodes, act) && IsEdit(act)
    ensures var t := Apply(s, act);
        forall i, p, w | i in t.stores && UserPath(nodes, p) && w in nodes && ConflictPath(p, w) in t.stores[i] ::
          CopyOf(t, p, w, Other(a, b, w), t.stores[i][ConflictPath(p, w)])
  {
    var t := Apply(s, act);
    StepGrows(s, nodes, a, b, act);
    forall i, p, w | i in t.stores && UserPath(nodes, p) && w in nodes && ConflictPath(p, w) in t.stores[i]
      ensures CopyOf(t, p, w, Other(a, b, w), t.stores[i][ConflictPath(p, w)])
    {
      assert ConflictPath(p, w) != act.path;
      assert CopyOf(s, p, w, Other(a, b, w), s.stores[i][ConflictPath(p, w)]);
      CopyOfGrows(s, t, p, w, Other(a, b, w), s.stores[i][ConflictPath(p, w)]);
    }
  }

  // The sent half of CopiesOk, when nothing new is sent.
  lemma CopiesGrow(s: System, t: System, nodes: set<string>, a: string, b: string)
    requires Pair(nodes, a, b) && s.stores.Keys == nodes && CopiesOk(s, nodes, a, b) && Grows(s, t) && t.sent == s.sent
    ensures forall k, p, w | k in t.sent && UserPath(nodes, p) && w in nodes && k.entry.path == ConflictPath(p, w) ::
        CopyOf(t, p, w, Other(a, b, w), k.entry)
  {
    forall k, p, w | k in t.sent && UserPath(nodes, p) && w in nodes && k.entry.path == ConflictPath(p, w)
      ensures CopyOf(t, p, w, Other(a, b, w), k.entry)
    {
      CopyOfGrows(s, t, p, w, Other(a, b, w), k.entry);
    }
  }

  lemma NewlySent(s: System, nodes: set<string>, act: Action, k: Packet)
    requires WellFormed(s, nodes) && Enabled(s, act) && act.Send? && k in Apply(s, act).sent && k !in s.sent
    ensures k.from == act.node && k.entry.path in s.stores[act.node] && k.entry == s.stores[act.node][k.entry.path]
  {
  }

  lemma SendKeepsCopies(s: System, nodes: set<string>, a: string, b: string, act: Action)
    requires TwoInv(s, nodes, a, b) && Enabled(s, act) && act.Send?
    ensures CopiesOk(Apply(s, act), nodes, a, b)
  {
    var t := Apply(s, act);
    forall i, p, w | i in t.stores && UserPath(nodes, p) && w in nodes && ConflictPath(p, w) in t.stores[i]
      ensures CopyOf(t, p, w, Other(a, b, w), t.stores[i][ConflictPath(p, w)])
    {
      assert CopyOf(s, p, w, Other(a, b, w), s.stores[i][ConflictPath(p, w)]);
    }
    forall k, p, w | k in t.sent && UserPath(nodes, p) && w in nodes && k.entry.path == ConflictPath(p, w)
      ensures CopyOf(t, p, w, Other(a, b, w), k.entry)
    {
      if k in s.sent {
        assert CopyOf(s, p, w, Other(a, b, w), k.entry);
      } else {
        NewlySent(s, nodes, act, k);
        assert CopyOf(s, p, w, Other(a, b, w), s.stores[act.node][ConflictPath(p, w)]);
      }
    }
  }

  lemma SendKeepsTwoInv(s: System, nodes: set<string>, a: string, b: string, act: Action)
    requires TwoInv(s, nodes, a, b) && Enabled(s, act) && act.Send?
    ensures TwoInv(Apply(s, act), nodes, a, b)
  {
    var t, i := Apply(s, act), act.node;
    StepWellFormed(s, nodes, act);
    forall k | k in t.sent && k !in s.sent
      ensures k.from == i && k.entry.path in s.stores[i] && k.entry == s.stores[i][k.entry.path]
    {
      NewlySent(s, nodes, act, k);
    }
    forall k | k in t.sent && UserPath(nodes, k.entry.path)
      ensures Genuine(t, k.from, k.entry)
    {
      if k in s.sent {
        assert Genuine(s, k.from, k.entry);
      } else {
        assert Genuine(s, i, s.stores[i][k.entry.path]);
      }
    }
    forall i, p | i in t.stores && p in t.stores[i] && UserPath(nodes, p)
      ensures Genuine(t, i, t.stores[i][p])
    {
      assert Genuine(s, i, s.stores[i][p]);
    }
    SendKeepsCopies(s, nodes, a, b, act);
  }

  lemma DeliverKeepsGenuine(s: System, nodes: set<string>, a: string, b: string, act: Action, p: string)
    requires TwoInv(s, nodes, a, b) && Enabled(s, act) && act.Deliver? && UserPath(nodes, p)
    requires p in Apply(s, act).stores[act.node]
    ensures Genuine(Apply(s, act), act.node, Apply(s, act).stores[act.node][p])
  {
    var mine, k, t := s.stores[act.node], act.packet, Apply(s, act);
    MergeMeaning(mine, k.entry);
    if Verdict(mine, k.entry).ConflictForked? {
      ConflictFacts(s, nodes, a, b, act.node, k);
      if p != k.entry.path { assert Genuine(s, act.node, mine[p]); }
    } else if p == k.entry.path {
      assert Genuine(s, k.from, k.entry);
      if p in mine { assert Genuine(s, act.node, mine[p]); }
    } else {
      assert Genuine(s, act.node, mine[p]);
    }
  }

  lemma DeliverKeepsCopy(s: System, nodes: set<string>, a: string, b: string, act: Action, p: string, w: string)
    requires TwoInv(s, nodes, a, b) && Enabled(s, act) && act.Deliver? && UserPath(nodes, p) && w in nodes
    requires ConflictPath(p, w) in Apply(s, act).stores[act.node]
    ensures CopyOf(Apply(s, act), p, w, Other(a, b, w), Apply(s, act).stores[act.node][ConflictPath(p, w)])
  {
    var mine, m, q := s.stores[act.node], act.packet.entry, ConflictPath(p, w);
    MergeMeaning(mine, m);
    if Verdict(mine, m).ConflictForked? {
      ConflictFacts(s, nodes, a, b, act.node, act.packet);
      if q == ForkOf(m).path {
        ConflictPathInjective(p, w, m.path, m.lastWriter);
        ForkIsCopy(s, nodes, a, b, act.node, act.packet);
      } else {
        StaysCopy(s, nodes, a, b, act, p, w, mine[q]);
      }
    } else if Apply(s, act).stores[act.node][q] == m {
      assert CopyOf(s, p, w, Other(a, b, w), m);
      StaysCopy(s, nodes, a, b, act, p, w, m);
    } else {
      StaysCopy(s, nodes, a, b, act, p, w, mine[q]);
    }
  }

  lemma StaysCopy(s: System, nodes: set<string>, a: string, b: string, act: Action, p: string, w: string, e: FileEntry)
    requires TwoInv(s, nodes, a, b) && TwoStep(s, nodes, act)
    requires w in nodes && CopyOf(s, p, w, Other(a, b, w), e)
    ensures CopyOf(Apply(s, act), p, w, Other(a, b, w), e)
  {
    StepGrows(s, nodes, a, b, act);
    CopyOfGrows(s, Apply(s, act), p, w, Other(a, b, w), e);
  }

  lemma ForkIsCopy(s: System, nodes: set<string>, a: string, b: string, i: string, k: Packet)
    requires TwoInv(s, nodes, a, b) && i in nodes && k in s.sent
    requires Verdict(s.stores[i], k.entry).ConflictForked?
    ensures CopyOf(Apply(s, Deliver(i, k)), k.entry.path, k.entry.lastWriter, i, ForkOf(k.entry))
  {
    ConflictFacts(s, nodes, a, b, i, k);
    MergeMeaning(s.stores[i], k.entry);
    var j := Merged(s.stores[i], k.entry)[k.entry.path];
    assert Leq(k.entry.clock, j.clock);
    assert ForkOf(k.entry).(path := k.entry.path) == k.entry;
  }

  lemma DeliverKeepsTwoInv(s: System, nodes: set<string>, a: string, b: string, act: Action)
    requires TwoInv(s, nodes, a, b) && Enabled(s, act) && act.Deliver?
    ensures TwoInv(Apply(s, act), nodes, a, b)
  {
    var t, mine, k := Apply(s, act), s.stores[act.node], act.packet;
    StepWellFormed(s, nodes, act);
    StepGrows(s, nodes, a, b, act);
    SentOkGrows(s, t);
    CopiesGrow(s, t, nodes, a, b);
    GenuineSent(s, t, nodes);
    forall i, p | i in t.stores && p in t.stores[i] && UserPath(nodes, p)
      ensures Genuine(t, i, t.stores[i][p])
    {
      if i == act.node {
        DeliverKeepsGenuine(s, nodes, a, b, act, p);
      } else {
        assert Genuine(s, i, s.stores[i][p]);
      }
    }
    forall i, r | i in t.stores && r in t.stores[i]
      ensures KnownPath(nodes, r)
    {
      if i == act.node && r !in mine {
        MergeMeaning(mine, k.entry);
        if Verdict(mine, k.entry).ConflictForked? { ConflictFacts(s, nodes, a, b, i, k); }
      } else {
        assert r in s.stores[i];
      }
    }
    forall i, p, w | i in t.stores && UserPath(nodes, p) && w in nodes && ConflictPath(p, w) in t.stores[i]
      ensures CopyOf(t, p, w, Other(a, b, w), t.stores[i][ConflictPath(p, w)])
    {
      if i == act.node {
        DeliverKeepsCopy(s, nodes, a, b, act, p, w);
      } else {
        assert CopyOf(s, p, w, Other(a, b, w), s.stores[i][ConflictPath(p, w)]);
        CopyOfGrows(s, t, p, w, Other(a, b, w), s.stores[i][ConflictPath(p, w)]);
      }
    }
  }

  lemma StepKeepsTwoInv(s: System, nodes: set<string>, a: string, b: string, act: Action)
    requires TwoInv(s, nodes, a, b) && TwoStep(s, nodes, act)
    ensures TwoInv(Apply(s, act), nodes, a, b)
  {
    if IsEdit(act) {
      EditKeepsTwoInv(s, nodes, a, b, act);
    } else if act.Send? {
      SendKeepsTwoInv(s, nodes, a, b, act);
    } else {
      DeliverKeepsTwoInv(s, nodes, a, b, act);
    }
  }

  lemma {:induction false} TwoInvHolds(nodes: set<string>, a: string, b: string, acts: seq<Action>)
    requires Pair(nodes, a, b) && IsRun(nodes, acts) && UserEdits(nodes, acts)
    ensures TwoInv(Final(nodes, acts), nodes, a, b)
  {
    if acts != [] {
      var before := acts[..|acts| - 1];
      assert acts == before + [acts[|acts| - 1]];
      TwoInvHolds(nodes, a, b, before);
      StepKeepsTwoInv(Final(nodes, before), nodes, a, b, acts[|acts| - 1]);
    }
  }

  // ---------- Main results ----------

  ghost predicate Present(s: System, e: FileEntry) {
    (exists i | i in s.stores :: e.path in s.stores[i] && s.stores[i][e.path] == e) || (exists k | k in s.sent :: k.entry == e)
  }

  // In every run of two nodes: anything that is replaced is replaced by something with a greater clock,
  // on user paths and conflict paths alike. A greater clock need not have taken the content in.
  lemma ClocksOnlyGrow(nodes: set<string>, a: string, b: string, acts: seq<Action>, act: Action)
    requires Pair(nodes, a, b) && IsRun(nodes, acts + [act]) && UserEdits(nodes, acts + [act])
    ensures IsRun(nodes, acts)
    ensures Grows(Final(nodes, acts), Final(nodes, acts + [act]))
  {
    var all := acts + [act];
    assert all[..|all| - 1] == acts;
    assert forall x | x in acts :: x in all;
    TwoInvHolds(nodes, a, b, acts);
    StepGrows(Final(nodes, acts), nodes, a, b, act);
  }

  // In every run of two nodes, concurrent versions of a path - wherever they are, stored or in flight -
  // have different last writers and belong to a user path: conflict copies never conflict with each other.
  lemma ConcurrentMeansDifferentWriters(nodes: set<string>, a: string, b: string, acts: seq<Action>, e: FileEntry, f: FileEntry)
    requires Pair(nodes, a, b) && IsRun(nodes, acts) && UserEdits(nodes, acts)
    requires Present(Final(nodes, acts), e) && Present(Final(nodes, acts), f)
    requires e.path == f.path && Order(e.clock, f.clock).Concurrent?
    ensures e.lastWriter != f.lastWriter
    ensures UserPath(nodes, e.path)
  {
    var s := Final(nodes, acts);
    TwoInvHolds(nodes, a, b, acts);
    if !UserPath(nodes, e.path) {
      CopiesNeverConflict(s, nodes, a, b, e, f);
    } else if e.lastWriter == f.lastWriter {
      SameWriterComparable(s, nodes, a, b, e, f);
    }
  }

  lemma CopiesNeverConflict(s: System, nodes: set<string>, a: string, b: string, e: FileEntry, f: FileEntry)
    requires TwoInv(s, nodes, a, b) && Present(s, e) && Present(s, f) && e.path == f.path && !UserPath(nodes, e.path)
    ensures Comparable(e.clock, f.clock)
  {
    assert KnownPath(nodes, e.path);
    var p, w :| UserPath(nodes, p) && w in nodes && ConflictPath(p, w) == e.path;
    PresentCopy(s, nodes, a, b, p, w, e);
    PresentCopy(s, nodes, a, b, p, w, f);
    CopiesComparable(s, p, w, Other(a, b, w), e, f);
  }

  lemma PresentCopy(s: System, nodes: set<string>, a: string, b: string, p: string, w: string, e: FileEntry)
    requires TwoInv(s, nodes, a, b) && Present(s, e) && UserPath(nodes, p) && w in nodes && e.path == ConflictPath(p, w)
    ensures CopyOf(s, p, w, Other(a, b, w), e)
  {
    if i :| i in s.stores && e.path in s.stores[i] && s.stores[i][e.path] == e {
      assert CopyOf(s, p, w, Other(a, b, w), s.stores[i][ConflictPath(p, w)]);
    } else {
      var k :| k in s.sent && k.entry == e;
      assert CopyOf(s, p, w, Other(a, b, w), k.entry);
    }
  }

  lemma SameWriterComparable(s: System, nodes: set<string>, a: string, b: string, e: FileEntry, f: FileEntry)
    requires TwoInv(s, nodes, a, b) && Present(s, e) && Present(s, f)
    requires e.path == f.path && UserPath(nodes, e.path) && e.lastWriter == f.lastWriter
    ensures Chained(e, f)
  {
    var w := e.lastWriter;
    ByWriter(s, nodes, a, b, e);
    ByWriter(s, nodes, a, b, f);
  }

  // Every version of a user path is its writer's current version or one that its writer sent.
  lemma ByWriter(s: System, nodes: set<string>, a: string, b: string, e: FileEntry)
    requires TwoInv(s, nodes, a, b) && Present(s, e) && UserPath(nodes, e.path)
    ensures Packet(e.lastWriter, e) in s.sent
        || (e.lastWriter in s.stores && e.path in s.stores[e.lastWriter] && s.stores[e.lastWriter][e.path] == e)
  {
    if i :| i in s.stores && e.path in s.stores[i] && s.stores[i][e.path] == e {
      assert Genuine(s, i, e);
    } else {
      var k :| k in s.sent && k.entry == e;
      assert Genuine(s, k.from, e);
    }
  }
}
