// What becomes of edits that nothing supersedes: with one or two nodes their content is always readable
// somewhere, in every run; with three or more it can vanish.
module Survival {
  import opened Basics
  import opened VectorClocks
  import opened ConflictPaths
  import opened CrdtStores
  import opened MergeOrder
  import opened Replication
  import opened Causality
  import opened TwoNodes

  // No other edit was made by someone who knew of e.
  ghost predicate Unsuperseded(log: seq<Edit>, e: nat) {
    e < |log| && forall f | 0 <= f < |log| && e in log[f].seen :: f == e
  }

  // The content of v is at its own path or at its writer's conflict path.
  ghost predicate Readable(s: Store, v: FileEntry) {
    || (v.path in s && SameVersion(s[v.path], v))
    || (ForkOf(v).path in s && SameVersion(s[ForkOf(v).path], ForkOf(v)))
  }

  // Surviving a merge into a new replica, where copies keep their own clocks, is a special case.
  lemma SurvivorsAreReadable(s: Store, v: FileEntry)
    requires Survives(s, v)
    ensures Readable(s, v)
  {
  }

  ghost predicate KeptSomewhere(s: System, v: FileEntry) {
    exists i | i in s.stores :: Readable(s.stores[i], v)
  }

  // ---------- Every version shows the edit that its writer's counter names ----------

  ghost predicate WrittenBy(log: seq<Edit>, m: FileEntry, f: nat) {
    && f < |log| && log[f].path == m.path && log[f].node == m.lastWriter
    && Rank(log, f) == Get(m.clock, m.lastWriter) && SameVersion(m, log[f].entry)
  }

  ghost predicate Told(log: seq<Edit>, m: FileEntry) {
    exists f: nat :: WrittenBy(log, m, f)
  }

  ghost predicate StoresTold(o: Observed, nodes: set<string>) {
    forall i, p {:trigger Told(o.log, o.sys.stores[i][p])} | i in o.sys.stores && p in o.sys.stores[i] && UserPath(nodes, p) ::
      Told(o.log, o.sys.stores[i][p])
  }

  ghost predicate SentTold(o: Observed, nodes: set<string>) {
    forall k {:trigger Told(o.log, k.entry)} | k in o.sys.sent && UserPath(nodes, k.entry.path) :: Told(o.log, k.entry)
  }

  ghost predicate LogOnUserPaths(log: seq<Edit>, nodes: set<string>) {
    forall e | 0 <= e < |log| :: UserPath(nodes, log[e].path)
  }

  ghost predicate AllTold(o: Observed, nodes: set<string>) {
    LogOnUserPaths(o.log, nodes) && StoresTold(o, nodes) && SentTold(o, nodes)
  }

  // A version that meets a conflict is the node's own.
  ghost predicate OwnConflicts(s: System, nodes: set<string>, a: Action)
    requires a.node in s.stores
  {
    a.Deliver? && UserPath(nodes, a.packet.entry.path) && Verdict(s.stores[a.node], a.packet.entry).ConflictForked? ==>
      s.stores[a.node][a.packet.entry.path].lastWriter == a.node
  }

  lemma ToldAppend(log: seq<Edit>, x: Edit, m: FileEntry)
    requires Told(log, m)
    ensures Told(log + [x], m)
  {
    var f: nat :| WrittenBy(log, m, f);
    assert (log + [x])[..f + 1] == log[..f + 1];
    assert WrittenBy(log + [x], m, f);
  }

  // The new edit is the one that the edited version names.
  lemma NewEditIsTold(o: Observed, nodes: set<string>, a: Action, seen: set<nat>)
    requires CausalInv(o, nodes) && CanObserve(o, a, seen) && IsEdit(a) && UserPath(nodes, a.path)
    ensures Told(Observe(o, a, seen).log, Apply(o.sys, a).stores[a.node][a.path])
  {
    var log := Observe(o, a, seen).log;
    EditKeepsInv(o, nodes, a, seen);
    assert LogFaithful(log, |o.log|);
    assert WrittenBy(log, log[|o.log|].entry, |o.log|);
  }

  lemma EditKeepsOthers(s: System, a: Action, i: string, p: string)
    requires Enabled(s, a) && IsEdit(a) && i in Apply(s, a).stores && p in Apply(s, a).stores[i] && (i, p) != (a.node, a.path)
    ensures i in s.stores && p in s.stores[i] && Apply(s, a).stores[i][p] == s.stores[i][p]
  {
  }

  lemma EditKeepsStoresTold(o: Observed, nodes: set<string>, a: Action, seen: set<nat>)
    requires CausalInv(o, nodes) && StoresTold(o, nodes) && CanObserve(o, a, seen) && IsEdit(a) && UserPath(nodes, a.path)
    ensures StoresTold(Observe(o, a, seen), nodes)
  {
    var o' := Observe(o, a, seen);
    var x := o'.log[|o.log|];
    forall i, p | i in o'.sys.stores && p in o'.sys.stores[i] && UserPath(nodes, p)
      ensures Told(o'.log, o'.sys.stores[i][p])
    {
      if (i, p) == (a.node, a.path) {
        NewEditIsTold(o, nodes, a, seen);
      } else {
        EditKeepsOthers(o.sys, a, i, p);
        ToldAppend(o.log, x, o.sys.stores[i][p]);
      }
    }
  }

  lemma EditKeepsTold(o: Observed, nodes: set<string>, a: Action, seen: set<nat>)
    requires CausalInv(o, nodes) && AllTold(o, nodes) && CanObserve(o, a, seen) && IsEdit(a) && UserPath(nodes, a.path)
    ensures AllTold(Observe(o, a, seen), nodes)
  {
    var o' := Observe(o, a, seen);
    EditKeepsStoresTold(o, nodes, a, seen);
    forall k | k in o'.sys.sent && UserPath(nodes, k.entry.path)
      ensures Told(o'.log, k.entry)
    {
      assert k in o.sys.sent;
      ToldAppend(o.log, o'.log[|o.log|], k.entry);
    }
  }

  lemma SendKeepsTold(o: Observed, nodes: set<string>, a: Action, seen: set<nat>)
    requires CausalInv(o, nodes) && AllTold(o, nodes) && CanObserve(o, a, seen) && a.Send?
    ensures AllTold(Observe(o, a, seen), nodes)
  {
    var o' := Observe(o, a, seen);
    assert o'.log == o.log && o'.sys.stores == o.sys.stores;
    forall k | k in o'.sys.sent && UserPath(nodes, k.entry.path)
      ensures Told(o'.log, k.entry)
    {
      if k !in o.sys.sent {
        NewlySent(o.sys, nodes, a, k);
        assert Told(o.log, o.sys.stores[a.node][k.entry.path]);
      }
    }
  }

  // A conflict leaves the own counter, and so the edit it names, as they were.
  lemma JoinKeepsTold(log: seq<Edit>, e: FileEntry, c: Clock)
    requires Told(log, e) && Get(c, e.lastWriter) <= Get(e.clock, e.lastWriter)
    ensures Told(log, e.(clock := Join(e.clock, c)))
  {
    var f: nat :| WrittenBy(log, e, f);
    JoinIsLub(e.clock, c);
    assert WrittenBy(log, e.(clock := Join(e.clock, c)), f);
  }

  lemma DeliverKeepsToldAt(o: Observed, nodes: set<string>, a: Action, seen: set<nat>, p: string)
    requires CausalInv(o, nodes) && AllTold(o, nodes) && CanObserve(o, a, seen) && a.Deliver? && OwnConflicts(o.sys, nodes, a)
    requires UserPath(nodes, p) && p in Apply(o.sys, a).stores[a.node]
    ensures Told(o.log, Apply(o.sys, a).stores[a.node][p])
  {
    var s, m := o.sys.stores[a.node], a.packet.entry;
    assert p in s ==> Told(o.log, s[p]);
    MergedAt(s, m, p, nodes);
    if p == m.path {
      assert a.packet in o.sys.sent && Told(o.log, m);
      if Verdict(s, m).ConflictForked? {
        assert StoreFaithful(o, a.node, p);
        assert Faithful(o.log, p, m.clock, seen);
        assert Get(m.clock, a.node) <= Total(o.log, a.node, p);
        JoinKeepsTold(o.log, s[p], m.clock);
      }
    }
  }

  lemma MergedAt(s: Store, m: FileEntry, p: string, nodes: set<string>)
    requires UserPath(nodes, p) && m.lastWriter in nodes
    ensures var t := Merged(s, m);
        if p != m.path then (p in t <==> p in s) && (p in s ==> t[p] == s[p])
        else match Verdict(s, m)
          case AppliedRemote => p in t && t[p] == m
          case ConflictForked => p in t && p in s && t[p] == s[p].(clock := Join(s[p].clock, m.clock))
          case _ => t == s
  {
    ConflictPathLonger(m.path, m.lastWriter);
    assert ForkOf(m).path == ConflictPath(m.path, m.lastWriter);
  }

  lemma DeliverKeepsTold(o: Observed, nodes: set<string>, a: Action, seen: set<nat>)
    requires CausalInv(o, nodes) && AllTold(o, nodes) && CanObserve(o, a, seen) && a.Deliver? && OwnConflicts(o.sys, nodes, a)
    ensures AllTold(Observe(o, a, seen), nodes)
  {
    var o' := Observe(o, a, seen);
    forall i, p | i in o'.sys.stores && p in o'.sys.stores[i] && UserPath(nodes, p)
      ensures Told(o'.log, o'.sys.stores[i][p])
    {
      if i == a.node {
        DeliverKeepsToldAt(o, nodes, a, seen, p);
      } else {
        assert Told(o.log, o.sys.stores[i][p]);
      }
    }
  }

  lemma StepKeepsTold(o: Observed, nodes: set<string>, a: Action, seen: set<nat>)
    requires CausalInv(o, nodes) && AllTold(o, nodes) && CanObserve(o, a, seen) && OwnConflicts(o.sys, nodes, a)
    requires IsEdit(a) ==> UserPath(nodes, a.path)
    ensures CausalInv(Observe(o, a, seen), nodes) && AllTold(Observe(o, a, seen), nodes)
  {
    if IsEdit(a) {
      EditKeepsInv(o, nodes, a, seen);
      EditKeepsTold(o, nodes, a, seen);
    } else if a.Send? {
      SendKeepsInv(o, nodes, a, seen);
      SendKeepsTold(o, nodes, a, seen);
    } else {
      DeliverKeepsInv(o, nodes, a, seen);
      DeliverKeepsTold(o, nodes, a, seen);
    }
  }

  // ---------- A superseded edit is an earlier one ----------

  lemma {:induction false} RanksGrow(log: seq<Edit>, e: nat, f: nat)
    requires e < f < |log| && log[e].node == log[f].node && log[e].path == log[f].path
    ensures Rank(log, e) < Rank(log, f)
  {
    var upto := log[..f + 1];
    assert upto[..f] == log[..f] && log[..f][..e + 1] == log[..e + 1];
    TotalGrows(log[..f], e + 1, log[e].node, log[e].path);
  }

  lemma SameRankSameEdit(log: seq<Edit>, e: nat, f: nat)
    requires e < |log| && f < |log| && log[e].node == log[f].node && log[e].path == log[f].path && Rank(log, e) == Rank(log, f)
    ensures e == f
  {
    if e < f { RanksGrow(log, e, f); }
    if f < e { RanksGrow(log, f, e); }
  }

  // An unsuperseded edit is its node's last one of the path.
  lemma UnsupersededIsLast(o: Observed, nodes: set<string>, e: nat)
    requires CausalInv(o, nodes) && LogOnUserPaths(o.log, nodes) && Unsuperseded(o.log, e)
    ensures 1 <= Rank(o.log, e) == Total(o.log, o.log[e].node, o.log[e].path)
  {
    var log, w, p := o.log, o.log[e].node, o.log[e].path;
    assert log[..e + 1][..e] == log[..e];
    TotalGrows(log, e + 1, w, p);
    if Rank(log, e) < Total(log, w, p) {
      var f := EditOfRank(log, w, p, Total(log, w, p));
      assert LogFaithful(log, f);
      assert Counted(log, p, log[f].entry.clock, e);
    }
  }

  lemma NamesTheEdit(log: seq<Edit>, m: FileEntry, e: nat)
    requires e < |log| && Told(log, m) && m.path == log[e].path && m.lastWriter == log[e].node
    requires Get(m.clock, m.lastWriter) == Rank(log, e)
    ensures SameVersion(m, log[e].entry)
  {
    var f: nat :| WrittenBy(log, m, f);
    SameRankSameEdit(log, e, f);
  }

  // ---------- Two nodes: what takes over an edit keeps a copy of it ----------

  // m is j's own version of p, and its clock counts w's r-th edit.
  ghost predicate Absorbs(m: FileEntry, j: string, p: string, w: string, r: nat) {
    m.path == p && m.lastWriter == j && Get(m.clock, w) >= r
  }

  // j has, or has sent, such a version.
  ghost predicate Absorbed(s: System, j: string, p: string, w: string, r: nat)
    requires j in s.stores
  {
    || (p in s.stores[j] && Absorbs(s.stores[j][p], j, p, w, r))
    || exists m :: Packet(j, m) in s.sent && Absorbs(m, j, p, w, r)
  }

  // At w's conflict path j holds a version as new.
  ghost predicate CopyCounts(s: System, j: string, p: string, w: string, r: nat)
    requires j in s.stores
  {
    ConflictPath(p, w) in s.stores[j] && Get(s.stores[j][ConflictPath(p, w)].clock, w) >= r
  }

  ghost predicate CopyKept(o: Observed, a: string, b: string, e: nat)
    requires e < |o.log| && a in o.sys.stores && b in o.sys.stores
  {
    var x := o.log[e];
    var j, r := Other(a, b, x.node), Rank(o.log, e);
    Unsuperseded(o.log, e) && Absorbed(o.sys, j, x.path, x.node, r) ==> CopyCounts(o.sys, j, x.path, x.node, r)
  }

  ghost predicate PairInv(o: Observed, nodes: set<string>, a: string, b: string) {
    && TwoInv(o.sys, nodes, a, b) && CausalInv(o, nodes) && AllTold(o, nodes)
    && (forall e | 0 <= e < |o.log| :: o.log[e].node in nodes)
    && (forall e | 0 <= e < |o.log| :: CopyKept(o, a, b, e))
  }

  lemma RankAppend(log: seq<Edit>, x: Edit, e: nat)
    requires e < |log|
    ensures Rank(log + [x], e) == Rank(log, e)
  {
    assert (log + [x])[..e + 1] == log[..e + 1];
  }

  lemma CopyCountsGrows(s: System, t: System, j: string, p: string, w: string, r: nat)
    requires j in s.stores && Grows(s, t) && CopyCounts(s, j, p, w, r)
    ensures CopyCounts(t, j, p, w, r)
  {
    assert StoreGrows(s.stores[j], t.stores[j]);
  }

  // The edit that was just made is counted nowhere else yet.
  lemma NewEditNotAbsorbed(o: Observed, nodes: set<string>, a: string, b: string, act: Action, seen: set<nat>)
    requires PairInv(o, nodes, a, b) && CanObserve(o, act, seen) && IsEdit(act) && UserPath(nodes, act.path)
    ensures var j, r := Other(a, b, act.node), Total(o.log, act.node, act.path) + 1;
        !Absorbed(Observe(o, act, seen).sys, j, act.path, act.node, r)
  {
    var w, p := act.node, act.path;
    var j, t := Other(a, b, w), Observe(o, act, seen).sys;
    assert StoreFaithful(o, j, p);
    assert t.stores[j] == o.sys.stores[j] && t.sent == o.sys.sent;
    assert p in o.sys.stores[j] ==> Get(o.sys.stores[j][p].clock, w) <= Total(o.log, w, p);
    forall m | Packet(j, m) in t.sent && m.path == p
      ensures Get(m.clock, w) <= Total(o.log, w, p)
    {
      assert Leq(Packet(j, m).entry.clock, o.sys.stores[j][p].clock);
    }
  }

  lemma EditKeepsCopyKept(o: Observed, nodes: set<string>, a: string, b: string, act: Action, seen: set<nat>, e: nat)
    requires PairInv(o, nodes, a, b) && CanObserve(o, act, seen) && IsEdit(act) && UserPath(nodes, act.path)
    requires e < |o.log|
    ensures CopyKept(Observe(o, act, seen), a, b, e)
  {
    var o' := Observe(o, act, seen);
    var x, y := o.log[e], o'.log[|o.log|];
    var j, r := Other(a, b, x.node), Rank(o.log, e);
    assert o'.log == o.log + [y];
    RankAppend(o.log, y, e);
    assert CopyKept(o, a, b, e);
    StepGrows(o.sys, nodes, a, b, act);
    if Unsuperseded(o'.log, e) && Absorbed(o'.sys, j, x.path, x.node, r) {
      UnsupersededBefore(o.log, y, e);
      EditAbsorbsNothing(o, nodes, a, b, act, seen, e);
      CopyCountsGrows(o.sys, o'.sys, j, x.path, x.node, r);
    }
  }

  // An edit that is not based on e does not count it.
  lemma EditAbsorbsNothing(o: Observed, nodes: set<string>, a: string, b: string, act: Action, seen: set<nat>, e: nat)
    requires PairInv(o, nodes, a, b) && CanObserve(o, act, seen) && IsEdit(act) && UserPath(nodes, act.path)
    requires e < |o.log| && e !in Observe(o, act, seen).log[|o.log|].seen
    requires Absorbed(Observe(o, act, seen).sys, Other(a, b, o.log[e].node), o.log[e].path, o.log[e].node, Rank(o.log, e))
    ensures Absorbed(o.sys, Other(a, b, o.log[e].node), o.log[e].path, o.log[e].node, Rank(o.log, e))
  {
    var o', x := Observe(o, act, seen), o.log[e];
    var y := o'.log[|o.log|];
    if (act.node, act.path) == (Other(a, b, x.node), x.path) {
      EditKeepsInv(o, nodes, act, seen);
      RankAppend(o.log, y, e);
      assert LogFaithful(o'.log, |o.log|);
      assert !Counted(o'.log, x.path, y.entry.clock, e);
    }
  }

  lemma UnsupersededBefore(log: seq<Edit>, y: Edit, e: nat)
    requires e < |log| && Unsuperseded(log + [y], e)
    ensures Unsuperseded(log, e) && e !in y.seen
  {
    var log' := log + [y];
    assert log'[|log|] == y;
    forall f | 0 <= f < |log| && e in log[f].seen
      ensures f == e
    {
      assert log'[f] == log[f];
    }
  }

  // A delivery makes j's own version count the edit only by keeping a copy of a version that does.
  lemma DeliverAbsorbs(o: Observed, nodes: set<string>, a: string, b: string, act: Action, seen: set<nat>, p: string, w: string, r: nat)
    requires PairInv(o, nodes, a, b) && CanObserve(o, act, seen) && act.Deliver? && w in nodes && UserPath(nodes, p)
    requires var j := Other(a, b, w); Absorbed(Apply(o.sys, act), j, p, w, r)
    ensures var j := Other(a, b, w); Absorbed(o.sys, j, p, w, r) || CopyCounts(Apply(o.sys, act), j, p, w, r)
  {
    var j, m, t := Other(a, b, w), act.packet.entry, Apply(o.sys, act);
    var s := o.sys.stores[j];
    if act.node == j && p == m.path && p in t.stores[j] && Absorbs(t.stores[j][p], j, p, w, r) {
      MergedAt(s, m, p, nodes);
      assert Genuine(o.sys, act.packet.from, m);
      if Verdict(s, m).ConflictForked? {
        ConflictFacts(o.sys, nodes, a, b, j, act.packet);
        JoinIsLub(s[p].clock, m.clock);
        MergeMeaning(s, m);
        assert ForkOf(m).path == ConflictPath(p, w);
      } else if Verdict(s, m).AppliedRemote? {
        assert Packet(j, m) in o.sys.sent by { assert act.packet == Packet(act.packet.from, m); }
      }
    } else if act.node == j {
      MergedAt(s, m, p, nodes);
    }
  }

  lemma DeliverKeepsCopyKept(o: Observed, nodes: set<string>, a: string, b: string, act: Action, seen: set<nat>, e: nat)
    requires PairInv(o, nodes, a, b) && CanObserve(o, act, seen) && act.Deliver? && e < |o.log|
    ensures CopyKept(Observe(o, act, seen), a, b, e)
  {
    var o', x := Observe(o, act, seen), o.log[e];
    var j, r := Other(a, b, x.node), Rank(o.log, e);
    assert CopyKept(o, a, b, e);
    if Unsuperseded(o.log, e) && Absorbed(o'.sys, j, x.path, x.node, r) {
      DeliverAbsorbs(o, nodes, a, b, act, seen, x.path, x.node, r);
      if Absorbed(o.sys, j, x.path, x.node, r) {
        StepGrows(o.sys, nodes, a, b, act);
        CopyCountsGrows(o.sys, o'.sys, j, x.path, x.node, r);
      }
    }
  }

  lemma SendKeepsCopyKept(o: Observed, nodes: set<string>, a: string, b: string, act: Action, seen: set<nat>, e: nat)
    requires PairInv(o, nodes, a, b) && CanObserve(o, act, seen) && act.Send? && e < |o.log|
    ensures CopyKept(Observe(o, act, seen), a, b, e)
  {
    var o', x := Observe(o, act, seen), o.log[e];
    var j, r := Other(a, b, x.node), Rank(o.log, e);
    assert CopyKept(o, a, b, e) && o'.log == o.log;
    if Absorbed(o'.sys, j, x.path, x.node, r) { SendAbsorbs(o.sys, nodes, act, j, x.path, x.node, r); }
  }

  lemma SendAbsorbs(s: System, nodes: set<string>, act: Action, j: string, p: string, w: string, r: nat)
    requires WellFormed(s, nodes) && Enabled(s, act) && act.Send? && j in s.stores && Absorbed(Apply(s, act), j, p, w, r)
    ensures Absorbed(s, j, p, w, r) && Apply(s, act).stores == s.stores
  {
    if m :| Packet(j, m) in Apply(s, act).sent && Absorbs(m, j, p, w, r) {
      if Packet(j, m) !in s.sent { NewlySent(s, nodes, act, Packet(j, m)); }
    }
  }

  lemma PairOwnConflicts(o: Observed, nodes: set<string>, a: string, b: string, act: Action)
    requires TwoInv(o.sys, nodes, a, b) && Enabled(o.sys, act)
    ensures OwnConflicts(o.sys, nodes, act)
  {
    if act.Deliver? && Verdict(o.sys.stores[act.node], act.packet.entry).ConflictForked? {
      ConflictFacts(o.sys, nodes, a, b, act.node, act.packet);
    }
  }

  lemma StepKeepsPairInv(o: Observed, nodes: set<string>, a: string, b: string, act: Action, seen: set<nat>)
    requires PairInv(o, nodes, a, b) && CanObserve(o, act, seen) && (IsEdit(act) ==> UserPath(nodes, act.path))
    ensures PairInv(Observe(o, act, seen), nodes, a, b)
  {
    var o' := Observe(o, act, seen);
    StepKeepsTwoInv(o.sys, nodes, a, b, act);
    PairOwnConflicts(o, nodes, a, b, act);
    StepKeepsTold(o, nodes, act, seen);
    forall e | 0 <= e < |o'.log|
      ensures CopyKept(o', a, b, e)
    {
      StepKeepsCopyKept(o, nodes, a, b, act, seen, e);
    }
  }

  lemma StepKeepsCopyKept(o: Observed, nodes: set<string>, a: string, b: string, act: Action, seen: set<nat>, e: nat)
    requires PairInv(o, nodes, a, b) && CanObserve(o, act, seen) && (IsEdit(act) ==> UserPath(nodes, act.path))
    requires e < |Observe(o, act, seen).log|
    ensures CopyKept(Observe(o, act, seen), a, b, e)
  {
    if act.Send? {
      SendKeepsCopyKept(o, nodes, a, b, act, seen, e);
    } else if act.Deliver? {
      DeliverKeepsCopyKept(o, nodes, a, b, act, seen, e);
    } else if e < |o.log| {
      EditKeepsCopyKept(o, nodes, a, b, act, seen, e);
    } else {
      NewEditNotAbsorbed(o, nodes, a, b, act, seen);
      var o' := Observe(o, act, seen);
      assert o'.log[..|o.log|] == o.log && o'.log[..e + 1] == o'.log;
      assert Rank(o'.log, e) == Total(o.log, act.node, act.path) + 1;
    }
  }

  ghost predicate ObservedUserRun(nodes: set<string>, acts: seq<Action>, seens: seq<set<nat>>) {
    IsObservedRun(nodes, acts, seens) && UserEdits(nodes, acts)
  }

  lemma RunBefore(nodes: set<string>, acts: seq<Action>, seens: seq<set<nat>>)
    requires ObservedUserRun(nodes, acts, seens) && acts != []
    ensures var k := |acts| - 1;
        && ObservedUserRun(nodes, acts[..k], seens[..k])
        && CanObserve(ObservedFinal(nodes, acts[..k], seens[..k]), acts[k], seens[k])
        && ObservedFinal(nodes, acts, seens) == Observe(ObservedFinal(nodes, acts[..k], seens[..k]), acts[k], seens[k])
        && (IsEdit(acts[k]) ==> UserPath(nodes, acts[k].path))
  {
    var k := |acts| - 1;
    assert acts[k] in acts && forall x | x in acts[..k] :: x in acts;
  }

  lemma {:induction false} PairInvHolds(nodes: set<string>, a: string, b: string, acts: seq<Action>, seens: seq<set<nat>>)
    requires Pair(nodes, a, b) && ObservedUserRun(nodes, acts, seens)
    ensures PairInv(ObservedFinal(nodes, acts, seens), nodes, a, b)
  {
    if acts == [] {
      CausalInvHolds(nodes, acts, seens);
    } else {
      var k := |acts| - 1;
      RunBefore(nodes, acts, seens);
      PairInvHolds(nodes, a, b, acts[..k], seens[..k]);
      StepKeepsPairInv(ObservedFinal(nodes, acts[..k], seens[..k]), nodes, a, b, acts[k], seens[k]);
    }
  }

  // The writer of an unsuperseded edit still has a version of the path that counts it.
  lemma WriterStillCounts(o: Observed, nodes: set<string>, e: nat)
    requires CausalInv(o, nodes) && AllTold(o, nodes) && Unsuperseded(o.log, e) && o.log[e].node in nodes
    ensures var x := o.log[e];
        && x.path in o.sys.stores[x.node]
        && Get(o.sys.stores[x.node][x.path].clock, x.node) == Rank(o.log, e) == Total(o.log, x.node, x.path)
        && Told(o.log, o.sys.stores[x.node][x.path])
  {
    var x := o.log[e];
    UnsupersededIsLast(o, nodes, e);
    assert StoreFaithful(o, x.node, x.path);
  }

  lemma KeptAtWriter(o: Observed, nodes: set<string>, e: nat)
    requires CausalInv(o, nodes) && AllTold(o, nodes) && Unsuperseded(o.log, e) && o.log[e].node in nodes
    requires var x := o.log[e]; x.path in o.sys.stores[x.node] ==> o.sys.stores[x.node][x.path].lastWriter == x.node
    ensures KeptSomewhere(o.sys, o.log[e].entry)
  {
    var x := o.log[e];
    WriterStillCounts(o, nodes, e);
    NamesTheEdit(o.log, o.sys.stores[x.node][x.path], e);
    assert LogFaithful(o.log, e);
    assert Readable(o.sys.stores[x.node], x.entry);
  }

  lemma KeptAtRival(o: Observed, nodes: set<string>, a: string, b: string, e: nat)
    requires PairInv(o, nodes, a, b) && e < |o.log| && Unsuperseded(o.log, e)
    requires CopyCounts(o.sys, Other(a, b, o.log[e].node), o.log[e].path, o.log[e].node, Rank(o.log, e))
    ensures KeptSomewhere(o.sys, o.log[e].entry)
  {
    var x := o.log[e];
    var j, w, p := Other(a, b, x.node), x.node, x.path;
    var c := o.sys.stores[j][ConflictPath(p, w)];
    assert CopyOf(o.sys, p, w, Other(a, b, w), o.sys.stores[j][ConflictPath(p, w)]);
    var sent := Packet(w, c.(path := p));
    assert Told(o.log, sent.entry);
    assert Leq(sent.entry.clock, o.sys.stores[w][p].clock);
    UnsupersededIsLast(o, nodes, e);
    assert StoreFaithful(o, w, p);
    NamesTheEdit(o.log, sent.entry, e);
    assert LogFaithful(o.log, e);
    assert Readable(o.sys.stores[j], x.entry);
  }

  lemma PairKeeps(o: Observed, nodes: set<string>, a: string, b: string, e: nat)
    requires PairInv(o, nodes, a, b) && e < |o.log| && Unsuperseded(o.log, e)
    ensures KeptSomewhere(o.sys, o.log[e].entry)
  {
    var x := o.log[e];
    var j, w, p := Other(a, b, x.node), x.node, x.path;
    if p in o.sys.stores[w] && o.sys.stores[w][p].lastWriter != w {
      RivalTookOver(o, nodes, a, b, e);
      KeptAtRival(o, nodes, a, b, e);
    } else {
      KeptAtWriter(o, nodes, e);
    }
  }

  // If the writer has a version of its rival in place, that version counts the edit, so the rival keeps
  // a copy.
  lemma RivalTookOver(o: Observed, nodes: set<string>, a: string, b: string, e: nat)
    requires PairInv(o, nodes, a, b) && e < |o.log| && Unsuperseded(o.log, e)
    requires var x := o.log[e]; x.path in o.sys.stores[x.node] && o.sys.stores[x.node][x.path].lastWriter != x.node
    ensures var x := o.log[e]; CopyCounts(o.sys, Other(a, b, x.node), x.path, x.node, Rank(o.log, e))
  {
    var w, p := o.log[e].node, o.log[e].path;
    var j, m := Other(a, b, w), o.sys.stores[w][p];
    WriterStillCounts(o, nodes, e);
    RivalsVersionWasSent(o.sys, nodes, a, b, w, p);
    assert Absorbs(m, j, p, w, Rank(o.log, e));
    assert CopyKept(o, a, b, e);
  }

  lemma RivalsVersionWasSent(s: System, nodes: set<string>, a: string, b: string, w: string, p: string)
    requires TwoInv(s, nodes, a, b) && w in nodes && UserPath(nodes, p) && p in s.stores[w] && s.stores[w][p].lastWriter != w
    ensures var m := s.stores[w][p]; m.path == p && m.lastWriter == Other(a, b, w) && Packet(Other(a, b, w), m) in s.sent
  {
    assert Genuine(s, w, s.stores[w][p]);
  }

  // In every run of two nodes the content of every edit that no later edit was based on can still be
  // read, at its path or at its writer's conflict path, on one of them.
  lemma UnsupersededEditKept(nodes: set<string>, a: string, b: string, acts: seq<Action>, seens: seq<set<nat>>, e: nat)
    requires Pair(nodes, a, b) && ObservedUserRun(nodes, acts, seens)
    requires Unsuperseded(ObservedFinal(nodes, acts, seens).log, e)
    ensures KeptSomewhere(ObservedFinal(nodes, acts, seens).sys, ObservedFinal(nodes, acts, seens).log[e].entry)
  {
    PairInvHolds(nodes, a, b, acts, seens);
    PairKeeps(ObservedFinal(nodes, acts, seens), nodes, a, b, e);
  }

  // ---------- One node ----------

  ghost predicate AloneInv(o: Observed, a: string) {
    && CausalInv(o, {a}) && AllTold(o, {a})
    && forall e | 0 <= e < |o.log| :: o.log[e].node == a
  }

  lemma {:induction false} OthersCountNothing(log: seq<Edit>, a: string, n: string, p: string)
    requires n != a && forall e | 0 <= e < |log| :: log[e].node == a
    ensures Total(log, n, p) == 0
  {
    if log != [] {
      assert log[|log| - 1].node == a;
      OthersCountNothing(log[..|log| - 1], a, n, p);
    }
  }

  // Whatever a lone node gets back from itself is no newer than what it has.
  lemma AloneNeverConflicts(o: Observed, a: string, act: Action, seen: set<nat>)
    requires AloneInv(o, a) && CanObserve(o, act, seen)
    ensures OwnConflicts(o.sys, {a}, act)
  {
    if act.Deliver? && UserPath({a}, act.packet.entry.path) {
      var m, p := act.packet.entry, act.packet.entry.path;
      assert StoreFaithful(o, a, p);
      assert Faithful(o.log, p, m.clock, seen);
      forall n
        ensures Get(m.clock, n) <= Get(ClockAt(o.sys.stores[a], p), n)
      {
        if n != a { OthersCountNothing(o.log, a, n, p); }
      }
      assert Leq(m.clock, ClockAt(o.sys.stores[a], p));
    }
  }

  lemma {:induction false} AloneInvHolds(a: string, acts: seq<Action>, seens: seq<set<nat>>)
    requires ObservedUserRun({a}, acts, seens)
    ensures AloneInv(ObservedFinal({a}, acts, seens), a)
  {
    if acts == [] {
      CausalInvHolds({a}, acts, seens);
    } else {
      var k := |acts| - 1;
      RunBefore({a}, acts, seens);
      AloneInvHolds(a, acts[..k], seens[..k]);
      var o := ObservedFinal({a}, acts[..k], seens[..k]);
      AloneNeverConflicts(o, a, acts[k], seens[k]);
      StepKeepsTold(o, {a}, acts[k], seens[k]);
    }
  }

  lemma AloneKeeps(a: string, acts: seq<Action>, seens: seq<set<nat>>, e: nat)
    requires ObservedUserRun({a}, acts, seens) && Unsuperseded(ObservedFinal({a}, acts, seens).log, e)
    ensures KeptSomewhere(ObservedFinal({a}, acts, seens).sys, ObservedFinal({a}, acts, seens).log[e].entry)
  {
    var o := ObservedFinal({a}, acts, seens);
    AloneInvHolds(a, acts, seens);
    KeptAtWriter(o, {a}, e);
  }
}
