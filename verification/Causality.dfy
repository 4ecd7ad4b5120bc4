// What vector clocks are for: compare() decides the causal history of two versions of a path.
// The histories are recorded independently of the clocks, by an observer who watches every edit.
module Causality {
  import opened Basics
  import opened VectorClocks
  import opened ConflictPaths
  import opened CrdtStores
  import opened Replication
  import opened MergeOrder

  // One local edit: who, where, the entry written and the edits it was based on (itself included).
  datatype Edit = Edit(node: string, path: string, entry: FileEntry, seen: set<nat>)

  datatype Letter = Letter(packet: Packet, seen: set<nat>)

  // The system with, beside each stored and sent entry, the set of edits it descends from.
  datatype Observed = Observed(sys: System, log: seq<Edit>, known: map<(string, string), set<nat>>, mail: set<Letter>)

  ghost function Known(o: Observed, node: string, path: string): set<nat> {
    if (node, path) in o.known then o.known[(node, path)] else {}
  }

  ghost function ObserveInit(nodes: set<string>): Observed {
    Observed(Init(nodes), [], map[], {})
  }

  // A delivery takes a letter: the packet together with the edits it descends from.
  ghost predicate CanObserve(o: Observed, a: Action, seen: set<nat>) {
    Enabled(o.sys, a) && (a.Deliver? ==> Letter(a.packet, seen) in o.mail)
  }

  ghost function KnownAfterMerge(o: Observed, node: string, m: FileEntry, seen: set<nat>): map<(string, string), set<nat>>
    requires node in o.sys.stores
  {
    match Verdict(o.sys.stores[node], m)
    case NoChange => o.known
    case KeptLocal => o.known
    case AppliedRemote => o.known[(node, m.path) := seen]
    case ConflictForked =>
      o.known[(node, ForkOf(m).path) := seen][(node, m.path) := Known(o, node, m.path) + seen]
  }

  ghost function Observe(o: Observed, a: Action, seen: set<nat>): Observed
    requires CanObserve(o, a, seen)
  {
    var sys' := Apply(o.sys, a);
    if IsEdit(a) then
      var seen' := Known(o, a.node, a.path) + {|o.log|};
      Observed(sys', o.log + [Edit(a.node, a.path, sys'.stores[a.node][a.path], seen')],
               o.known[(a.node, a.path) := seen'], o.mail)
    else if a.Send? then
      var s := o.sys.stores[a.node];
      Observed(sys', o.log, o.known,
               o.mail + set p | p in s :: Letter(Packet(a.node, s[p]), Known(o, a.node, p)))
    else
      Observed(sys', o.log, KnownAfterMerge(o, a.node, a.packet.entry, seen), o.mail)
  }

  ghost predicate IsObservedRun(nodes: set<string>, acts: seq<Action>, seens: seq<set<nat>>)
    decreases |acts|, 0
  {
    |acts| == |seens| &&
    (acts == [] ||
     var k := |acts| - 1;
     IsObservedRun(nodes, acts[..k], seens[..k]) && CanObserve(ObservedFinal(nodes, acts[..k], seens[..k]), acts[k], seens[k]))
  }

  ghost function ObservedFinal(nodes: set<string>, acts: seq<Action>, seens: seq<set<nat>>): Observed
    requires IsObservedRun(nodes, acts, seens)
    decreases |acts|, 1
  {
    if acts == [] then ObserveInit(nodes)
    else
      var k := |acts| - 1;
      Observe(ObservedFinal(nodes, acts[..k], seens[..k]), acts[k], seens[k])
  }

  // Observation neither adds nor removes behaviour: every run of the system has an observed counterpart.
  lemma {:induction false} EveryRunObserved(nodes: set<string>, acts: seq<Action>) returns (seens: seq<set<nat>>)
    requires IsRun(nodes, acts)
    ensures IsObservedRun(nodes, acts, seens)
    ensures ObservedFinal(nodes, acts, seens).sys == Final(nodes, acts)
    ensures forall k :: k in Final(nodes, acts).sent ==> exists x :: Letter(k, x) in ObservedFinal(nodes, acts, seens).mail
  {
    if acts == [] {
      seens := [];
    } else {
      var n := |acts| - 1;
      var before := EveryRunObserved(nodes, acts[..n]);
      var o, a := ObservedFinal(nodes, acts[..n], before), acts[n];
      var seen := {};
      if a.Deliver? { seen :| Letter(a.packet, seen) in o.mail; }
      seens := before + [seen];
      assert seens[..n] == before;
      var o' := Observe(o, a, seen);
      forall k | k in o'.sys.sent
        ensures exists x :: Letter(k, x) in o'.mail
      {
        if k in o.sys.sent {
          var x :| Letter(k, x) in o.mail;
          assert Letter(k, x) in o'.mail;
        } else {
          var p :| p in o.sys.stores[a.node] && k == Packet(a.node, o.sys.stores[a.node][p]);
          assert Letter(k, Known(o, a.node, p)) in o'.mail;
        }
      }
    }
  }

  // ---------- Counting edits ----------

  ghost function Total(log: seq<Edit>, node: string, path: string): nat {
    if log == [] then 0
    else
      var last := log[|log| - 1];
      Total(log[..|log| - 1], node, path) + if last.node == node && last.path == path then 1 else 0
  }

  // An edit is its node's Rank-th edit of its path.
  ghost function Rank(log: seq<Edit>, e: nat): nat
    requires e < |log|
  {
    Total(log[..e + 1], log[e].node, log[e].path)
  }

  lemma {:induction false} TotalGrows(log: seq<Edit>, k: nat, node: string, path: string)
    requires k <= |log|
    ensures Total(log[..k], node, path) <= Total(log, node, path)
  {
    if k == |log| {
      assert log[..k] == log;
    } else {
      assert log[..|log| - 1][..k] == log[..k];
      TotalGrows(log[..|log| - 1], k, node, path);
    }
  }

  lemma {:induction false} EditOfRank(log: seq<Edit>, node: string, path: string, rank: nat) returns (e: nat)
    requires 1 <= rank <= Total(log, node, path)
    ensures e < |log| && log[e].node == node && log[e].path == path && Rank(log, e) == rank
  {
    var k := |log| - 1;
    if rank <= Total(log[..k], node, path) {
      e := EditOfRank(log[..k], node, path, rank);
      assert log[..k][..e + 1] == log[..e + 1];
    } else {
      e := k;
      assert log[..k + 1] == log;
    }
  }

  // A version of path with this clock descends from exactly the edits that the clock counts, and from
  // everything those edits descend from.
  ghost predicate Faithful(log: seq<Edit>, path: string, clock: Clock, seen: set<nat>) {
    && WithinTotals(log, path, clock)
    && (forall e: nat :: e in seen <==> Counted(log, path, clock, e))
    && PastClosed(log, seen)
  }

  ghost predicate WithinTotals(log: seq<Edit>, path: string, clock: Clock) {
    forall n :: Get(clock, n) <= Total(log, n, path)
  }

  ghost predicate PastClosed(log: seq<Edit>, seen: set<nat>) {
    forall e | e in seen :: e < |log| && log[e].seen <= seen
  }

  ghost predicate Counted(log: seq<Edit>, path: string, clock: Clock, e: nat) {
    e < |log| && log[e].path == path && Rank(log, e) <= Get(clock, log[e].node)
  }

  lemma TotalsAppend(log: seq<Edit>, x: Edit, path: string, clock: Clock)
    requires WithinTotals(log, path, clock)
    ensures WithinTotals(log + [x], path, clock)
  {
    assert (log + [x])[..|log|] == log;
    forall n ensures Get(clock, n) <= Total(log + [x], n, path) {
      assert Get(clock, n) <= Total(log, n, path);
    }
  }

  lemma CountedAppend(log: seq<Edit>, x: Edit, path: string, clock: Clock, e: nat)
    requires WithinTotals(log, path, clock)
    ensures Counted(log + [x], path, clock, e) <==> Counted(log, path, clock, e)
  {
    var log' := log + [x];
    if e < |log| {
      assert log'[..e + 1] == log[..e + 1];
    } else if e == |log| {
      assert log'[..e + 1] == log' && log'[..|log|] == log;
      assert Get(clock, x.node) <= Total(log, x.node, path);
    }
  }

  lemma FaithfulAppend(log: seq<Edit>, x: Edit, path: string, clock: Clock, seen: set<nat>)
    requires Faithful(log, path, clock, seen)
    ensures Faithful(log + [x], path, clock, seen)
  {
    TotalsAppend(log, x, path, clock);
    forall e: nat { CountedAppend(log, x, path, clock, e); }
    assert PastClosed(log + [x], seen);
  }

  lemma FaithfulEdit(log: seq<Edit>, x: Edit, clock: Clock, seen: set<nat>)
    requires Faithful(log, x.path, clock, seen)
    requires Get(clock, x.node) == Total(log, x.node, x.path) && Get(clock, x.node) + 1 < TWO64
    requires x.seen == seen + {|log|}
    ensures Faithful(log + [x], x.path, Incremented(clock, x.node), x.seen)
  {
    var log', clock' := log + [x], Incremented(clock, x.node);
    FaithfulAppend(log, x, x.path, clock, seen);
    TotalsEdit(log, x, clock);
    forall e: nat
      ensures e in x.seen <==> Counted(log', x.path, clock', e)
    {
      assert e in seen <==> Counted(log', x.path, clock, e);
      CountedAfterEdit(log, x, clock, e);
    }
    PastClosedEdit(log, x, seen);
  }

  lemma TotalsEdit(log: seq<Edit>, x: Edit, clock: Clock)
    requires WithinTotals(log, x.path, clock) && Get(clock, x.node) + 1 < TWO64
    ensures WithinTotals(log + [x], x.path, Incremented(clock, x.node))
  {
    var log' := log + [x];
    assert log'[..|log|] == log;
    forall n
      ensures Get(Incremented(clock, x.node), n) <= Total(log', n, x.path)
    {
      assert Get(clock, n) <= Total(log, n, x.path);
    }
  }

  lemma PastClosedEdit(log: seq<Edit>, x: Edit, seen: set<nat>)
    requires PastClosed(log, seen) && x.seen == seen + {|log|}
    ensures PastClosed(log + [x], x.seen)
  {
    forall e | e in x.seen
      ensures e < |log + [x]| && (log + [x])[e].seen <= x.seen
    {
      if e in seen { assert log[e].seen <= seen; }
    }
  }

  lemma CountedAfterEdit(log: seq<Edit>, x: Edit, clock: Clock, e: nat)
    requires Get(clock, x.node) == Total(log, x.node, x.path) && Get(clock, x.node) + 1 < TWO64
    ensures Counted(log + [x], x.path, Incremented(clock, x.node), e)
        <==> e == |log| || Counted(log + [x], x.path, clock, e)
  {
    if e < |log| {
      OldEditCounted(log, x, clock, e);
    } else if e == |log| {
      NewEditCounted(log, x, clock);
    }
  }

  lemma OldEditCounted(log: seq<Edit>, x: Edit, clock: Clock, e: nat)
    requires Get(clock, x.node) == Total(log, x.node, x.path) && Get(clock, x.node) + 1 < TWO64 && e < |log|
    ensures Counted(log + [x], x.path, Incremented(clock, x.node), e) <==> Counted(log + [x], x.path, clock, e)
  {
    var log' := log + [x];
    assert log'[e] == log[e] && log'[..e + 1] == log[..e + 1];
    if log[e].node == x.node && log[e].path == x.path { TotalGrows(log, e + 1, x.node, x.path); }
  }

  lemma NewEditCounted(log: seq<Edit>, x: Edit, clock: Clock)
    requires Get(clock, x.node) == Total(log, x.node, x.path) && Get(clock, x.node) + 1 < TWO64
    ensures Counted(log + [x], x.path, Incremented(clock, x.node), |log|)
  {
    var log' := log + [x];
    assert log'[|log|] == x && log'[..|log| + 1] == log' && log'[..|log|] == log;
  }

  lemma FaithfulJoin(log: seq<Edit>, path: string, a: Clock, sa: set<nat>, b: Clock, sb: set<nat>)
    requires Faithful(log, path, a, sa) && Faithful(log, path, b, sb)
    ensures Faithful(log, path, Join(a, b), sa + sb)
  {
    JoinIsLub(a, b);
    forall e: nat ensures e in sa + sb <==> Counted(log, path, Join(a, b), e) {
      assert e in sa <==> Counted(log, path, a, e);
      assert e in sb <==> Counted(log, path, b, e);
    }
    forall n ensures Get(Join(a, b), n) <= Total(log, n, path) {
      assert Get(a, n) <= Total(log, n, path) && Get(b, n) <= Total(log, n, path);
    }
    forall e | e in sa + sb ensures e < |log| && log[e].seen <= sa + sb {
      if e in sa { assert log[e].seen <= sa; } else { assert log[e].seen <= sb; }
    }
  }

  // ---------- The invariant ----------

  ghost predicate StoreFaithful(o: Observed, i: string, p: string)
    requires i in o.sys.stores
  {
    && (p in o.sys.stores[i] ==> Faithful(o.log, p, o.sys.stores[i][p].clock, Known(o, i, p)))
    && (p !in o.sys.stores[i] ==> Known(o, i, p) == {})
    // No clock anywhere runs ahead of a node's own store.
    && Get(ClockAt(o.sys.stores[i], p), i) == Total(o.log, i, p)
  }

  ghost predicate LogFaithful(log: seq<Edit>, e: nat)
    requires e < |log|
  {
    var x := log[e];
    && Faithful(log, x.path, x.entry.clock, x.seen)
    && e in x.seen && (forall d | d in x.seen :: d <= e)
    && x.entry.path == x.path && x.entry.lastWriter == x.node
    && Get(x.entry.clock, x.node) == Rank(log, e)
  }

  ghost predicate CausalInv(o: Observed, nodes: set<string>) {
    && WellFormed(o.sys, nodes)
    && (forall l | l in o.mail :: l.packet in o.sys.sent)
    && (forall i, p | i in nodes && UserPath(nodes, p) :: StoreFaithful(o, i, p))
    && (forall l | l in o.mail && UserPath(nodes, l.packet.entry.path) ::
          Faithful(o.log, l.packet.entry.path, l.packet.entry.clock, l.seen))
    && (forall e | 0 <= e < |o.log| && UserPath(nodes, o.log[e].path) :: LogFaithful(o.log, e))
  }

  lemma NothingCounted(log: seq<Edit>, path: string)
    ensures Faithful(log, path, map[], {})
  {
    forall e: nat
      ensures !Counted(log, path, map[], e)
    {
      if e < |log| { assert log[..e + 1][..e] == log[..e]; }
    }
  }

  lemma StoreFaithfulAppend(o: Observed, o': Observed, x: Edit, i: string, p: string)
    requires i in o.sys.stores && i in o'.sys.stores && StoreFaithful(o, i, p)
    requires o'.log == o.log + [x] && (x.node, x.path) != (i, p)
    requires p in o.sys.stores[i] <==> p in o'.sys.stores[i]
    requires p in o.sys.stores[i] ==> o'.sys.stores[i][p] == o.sys.stores[i][p]
    requires Known(o', i, p) == Known(o, i, p)
    ensures StoreFaithful(o', i, p)
  {
    assert o'.log[..|o.log|] == o.log;
    if p in o.sys.stores[i] {
      FaithfulAppend(o.log, x, p, o.sys.stores[i][p].clock, Known(o, i, p));
    }
  }

  lemma EditFaithful(o: Observed, a: Action)
    requires IsEdit(a) && CanObserve(o, a, {}) && StoreFaithful(o, a.node, a.path)
    ensures StoreFaithful(Observe(o, a, {}), a.node, a.path)
    ensures LogFaithful(Observe(o, a, {}).log, |o.log|)
  {
    var o' := Observe(o, a, {});
    var x := o'.log[|o.log|];
    var clock := ClockAt(o.sys.stores[a.node], a.path);
    if a.path !in o.sys.stores[a.node] { NothingCounted(o.log, a.path); }
    FaithfulEdit(o.log, x, clock, Known(o, a.node, a.path));
    assert o'.log[..|o.log|] == o.log && o'.log[..|o.log| + 1] == o'.log;
  }

  lemma EditKeepsInv(o: Observed, nodes: set<string>, a: Action, seen: set<nat>)
    requires CausalInv(o, nodes) && CanObserve(o, a, seen) && IsEdit(a)
    ensures CausalInv(Observe(o, a, seen), nodes)
  {
    var o' := Observe(o, a, seen);
    var x := o'.log[|o.log|];
    StepWellFormed(o.sys, nodes, a);
    forall i, p | i in nodes && UserPath(nodes, p)
      ensures StoreFaithful(o', i, p)
    {
      assert StoreFaithful(o, i, p);
      if (i, p) == (a.node, a.path) {
        EditFaithful(o, a);
      } else {
        StoreFaithfulAppend(o, o', x, i, p);
      }
    }
    forall l | l in o'.mail && UserPath(nodes, l.packet.entry.path)
      ensures Faithful(o'.log, l.packet.entry.path, l.packet.entry.clock, l.seen)
    {
      FaithfulAppend(o.log, x, l.packet.entry.path, l.packet.entry.clock, l.seen);
    }
    forall e | 0 <= e < |o'.log| && UserPath(nodes, o'.log[e].path)
      ensures LogFaithful(o'.log, e)
    {
      if e == |o.log| {
        assert StoreFaithful(o, a.node, a.path);
        EditFaithful(o, a);
      } else {
        LogStaysFaithful(o.log, x, e);
      }
    }
  }

  lemma LogStaysFaithful(log: seq<Edit>, x: Edit, e: nat)
    requires e < |log| && LogFaithful(log, e)
    ensures LogFaithful(log + [x], e)
  {
    FaithfulAppend(log, x, log[e].path, log[e].entry.clock, log[e].seen);
    assert (log + [x])[..e + 1] == log[..e + 1];
  }

  lemma SendKeepsInv(o: Observed, nodes: set<string>, a: Action, seen: set<nat>)
    requires CausalInv(o, nodes) && CanObserve(o, a, seen) && a.Send?
    ensures CausalInv(Observe(o, a, seen), nodes)
  {
    var o' := Observe(o, a, seen);
    StepWellFormed(o.sys, nodes, a);
    forall i, p | i in nodes && UserPath(nodes, p)
      ensures StoreFaithful(o', i, p)
    {
      assert StoreFaithful(o, i, p);
    }
    forall l | l in o'.mail && UserPath(nodes, l.packet.entry.path)
      ensures Faithful(o'.log, l.packet.entry.path, l.packet.entry.clock, l.seen)
    {
      if l !in o.mail {
        assert StoreFaithful(o, a.node, l.packet.entry.path);
      }
    }
  }

  lemma MergeFaithful(o: Observed, nodes: set<string>, a: Action, seen: set<nat>)
    requires CausalInv(o, nodes) && CanObserve(o, a, seen) && a.Deliver? && UserPath(nodes, a.packet.entry.path)
    ensures StoreFaithful(Observe(o, a, seen), a.node, a.packet.entry.path)
  {
    var m, s := a.packet.entry, o.sys.stores[a.node];
    var p := m.path;
    assert StoreFaithful(o, a.node, p);
    assert Faithful(o.log, p, m.clock, seen);
    assert Get(m.clock, a.node) <= Total(o.log, a.node, p);
    MergeMeaning(s, m);
    if Verdict(s, m).ConflictForked? {
      FaithfulJoin(o.log, p, s[p].clock, Known(o, a.node, p), m.clock, seen);
    }
  }

  lemma DeliverFaithful(o: Observed, nodes: set<string>, a: Action, seen: set<nat>, i: string, p: string)
    requires CausalInv(o, nodes) && CanObserve(o, a, seen) && a.Deliver? && i in nodes && UserPath(nodes, p)
    ensures StoreFaithful(Observe(o, a, seen), i, p)
  {
    assert StoreFaithful(o, i, p);
    if (i, p) == (a.node, a.packet.entry.path) {
      MergeFaithful(o, nodes, a, seen);
    } else {
      UserPathStep(o.sys, nodes, a, p);
      assert ForkOf(a.packet.entry).path != p;
    }
  }

  lemma DeliverKeepsInv(o: Observed, nodes: set<string>, a: Action, seen: set<nat>)
    requires CausalInv(o, nodes) && CanObserve(o, a, seen) && a.Deliver?
    ensures CausalInv(Observe(o, a, seen), nodes)
  {
    var o' := Observe(o, a, seen);
    StepWellFormed(o.sys, nodes, a);
    forall i, p | i in nodes && UserPath(nodes, p)
      ensures StoreFaithful(o', i, p)
    {
      DeliverFaithful(o, nodes, a, seen, i, p);
    }
  }

  lemma {:induction false} CausalInvHolds(nodes: set<string>, acts: seq<Action>, seens: seq<set<nat>>)
    requires IsObservedRun(nodes, acts, seens)
    ensures CausalInv(ObservedFinal(nodes, acts, seens), nodes)
  {
    if acts != [] {
      var k := |acts| - 1;
      CausalInvHolds(nodes, acts[..k], seens[..k]);
      var o := ObservedFinal(nodes, acts[..k], seens[..k]);
      if IsEdit(acts[k]) {
        EditKeepsInv(o, nodes, acts[k], seens[k]);
      } else if acts[k].Send? {
        SendKeepsInv(o, nodes, acts[k], seens[k]);
      } else {
        DeliverKeepsInv(o, nodes, acts[k], seens[k]);
      }
    }
  }

  // ---------- Main results ----------

  // A version of path, stored or in flight, with the edits it descends from.
  ghost predicate IsVersion(o: Observed, path: string, clock: Clock, seen: set<nat>) {
    || (exists i | i in o.sys.stores :: path in o.sys.stores[i] && o.sys.stores[i][path].clock == clock && Known(o, i, path) == seen)
    || (exists l | l in o.mail :: l.packet.entry.path == path && l.packet.entry.clock == clock && l.seen == seen)
    || (exists e | 0 <= e < |o.log| :: o.log[e].path == path && o.log[e].entry.clock == clock && o.log[e].seen == seen)
  }

  lemma FaithfulOrder(log: seq<Edit>, path: string, a: Clock, sa: set<nat>, b: Clock, sb: set<nat>)
    requires Faithful(log, path, a, sa) && Faithful(log, path, b, sb)
    ensures Leq(a, b) <==> sa <= sb
  {
    if sa <= sb {
      forall n
        ensures Get(a, n) <= Get(b, n)
      {
        if Get(a, n) > 0 {
          assert Get(a, n) <= Total(log, n, path);
          var e := EditOfRank(log, n, path, Get(a, n));
          assert e in sa <==> Counted(log, path, a, e);
          assert e in sb <==> Counted(log, path, b, e);
        }
      }
    }
    if Leq(a, b) {
      forall e | e in sa
        ensures e in sb
      {
        assert Counted(log, path, a, e);
        assert Get(a, log[e].node) <= Get(b, log[e].node);
        assert e in sb <==> Counted(log, path, b, e);
      }
    }
  }

  // In every run of any number of nodes, compare() decides causal history exactly for every path that
  // no fork can land on: BEFORE iff one history is strictly contained in the other, CONCURRENT iff
  // each version holds an edit that the other has not seen.
  lemma CompareDecidesHistory(nodes: set<string>, acts: seq<Action>, seens: seq<set<nat>>, path: string,
                              a: Clock, sa: set<nat>, b: Clock, sb: set<nat>)
    requires IsObservedRun(nodes, acts, seens) && UserPath(nodes, path)
    requires IsVersion(ObservedFinal(nodes, acts, seens), path, a, sa)
    requires IsVersion(ObservedFinal(nodes, acts, seens), path, b, sb)
    ensures Order(a, b).Equal? <==> sa == sb
    ensures Order(a, b).Before? <==> sa < sb
    ensures Order(a, b).After? <==> sb < sa
    ensures Order(a, b).Concurrent? <==> (exists e :: e in sa && e !in sb) && (exists e :: e in sb && e !in sa)
  {
    var o := ObservedFinal(nodes, acts, seens);
    CausalInvHolds(nodes, acts, seens);
    VersionFaithful(o, nodes, path, a, sa);
    VersionFaithful(o, nodes, path, b, sb);
    FaithfulOrder(o.log, path, a, sa, b, sb);
    FaithfulOrder(o.log, path, b, sb, a, sa);
  }

  lemma VersionFaithful(o: Observed, nodes: set<string>, path: string, clock: Clock, seen: set<nat>)
    requires CausalInv(o, nodes) && UserPath(nodes, path) && IsVersion(o, path, clock, seen)
    ensures Faithful(o.log, path, clock, seen)
  {
    if i :| i in o.sys.stores && path in o.sys.stores[i] && o.sys.stores[i][path].clock == clock && Known(o, i, path) == seen {
      assert StoreFaithful(o, i, path);
    } else if e :| 0 <= e < |o.log| && o.log[e].path == path && o.log[e].entry.clock == clock && o.log[e].seen == seen {
      assert LogFaithful(o.log, e);
    }
  }

  // The entries recorded by the edits of one path.
  ghost function WrittenTo(log: seq<Edit>, path: string): set<FileEntry> {
    set e | 0 <= e < |log| && log[e].path == path :: log[e].entry
  }

  // A clock that counts an edit dominates the whole clock of that edit, and no two edits share a clock.
  lemma EditsAreAsWritten(o: Observed, nodes: set<string>, path: string)
    requires CausalInv(o, nodes) && UserPath(nodes, path)
    ensures AsWritten(WrittenTo(o.log, path), path)
  {
    var log := o.log;
    forall e, f | 0 <= e < |log| && 0 <= f < |log| && log[e].path == path && log[f].path == path
      ensures CountsLastWrite(log[f].entry, log[e].entry) ==> Leq(log[e].entry.clock, log[f].entry.clock)
      ensures Same(log[e].entry.clock, log[f].entry.clock) ==> e == f
    {
      assert LogFaithful(log, e) && LogFaithful(log, f);
      FaithfulOrder(log, path, log[e].entry.clock, log[e].seen, log[f].entry.clock, log[f].seen);
      FaithfulOrder(log, path, log[f].entry.clock, log[f].seen, log[e].entry.clock, log[e].seen);
      if CountsLastWrite(log[f].entry, log[e].entry) {
        assert e in log[f].seen <==> Counted(log, path, log[f].entry.clock, e);
      }
      if Same(log[e].entry.clock, log[f].entry.clock) {
        assert e in log[f].seen && f in log[e].seen;
      }
    }
  }

  // However the recorded edits of a path reach a new replica - any order, any repetition - every edit
  // that no later edit was based on can still be read there.
  lemma UnsupersededEditSurvives(nodes: set<string>, acts: seq<Action>, seens: seq<set<nat>>, path: string,
                                 ms: seq<FileEntry>, e: nat)
    requires IsObservedRun(nodes, acts, seens) && UserPath(nodes, path)
    requires var log := ObservedFinal(nodes, acts, seens).log;
        && Elems(ms) == WrittenTo(log, path)
        && e < |log| && log[e].path == path
        && forall f | 0 <= f < |log| && log[f].path == path && e in log[f].seen :: f == e
    ensures Survives(MergeAll(map[], ms), ObservedFinal(nodes, acts, seens).log[e].entry)
  {
    var o := ObservedFinal(nodes, acts, seens);
    var log, v := o.log, o.log[e].entry;
    CausalInvHolds(nodes, acts, seens);
    EditsAreAsWritten(o, nodes, path);
    assert v in WrittenTo(log, path);
    forall u | u in WrittenTo(log, path) && Leq(v.clock, u.clock)
      ensures u == v
    {
      var f :| 0 <= f < |log| && log[f].path == path && log[f].entry == u;
      assert LogFaithful(log, e) && LogFaithful(log, f);
      FaithfulOrder(log, path, v.clock, log[e].seen, u.clock, log[f].seen);
    }
    ConcurrentVersionsSurvive(ms, path, v);
  }
}
