// The replicas as one step system: any number of nodes, local edits, manifests that are sent at any
// time and whose entries arrive in any order, any number of times, or never.
module Replication {
  import opened Basics
  import opened VectorClocks
  import opened ConflictPaths
  import opened CrdtStores

  // One manifest entry as it left a node.
  datatype Packet = Packet(from: string, entry: FileEntry)

  datatype System = System(stores: map<string, Store>, sent: set<Packet>)

  datatype Action =
    | Put(node: string, path: string, hashes: seq<Digest>, root: Digest, size: u64)
    | Delete(node: string, path: string)
    | Send(node: string)
    | Deliver(node: string, packet: Packet)

  ghost function Init(nodes: set<string>): System {
    System(map n | n in nodes :: map[], {})
  }

  ghost function Manifest(node: string, s: Store): set<Packet> {
    set p | p in s :: Packet(node, s[p])
  }

  // Only sent entries are delivered, and no counter is incremented past 2^64 - 1.
  ghost predicate Enabled(s: System, a: Action) {
    && a.node in s.stores
    && match a
       case Put(node, path, _, _, _) => Get(ClockAt(s.stores[node], path), node) + 1 < TWO64
       case Delete(node, path) => Get(ClockAt(s.stores[node], path), node) + 1 < TWO64
       case Send(node) => true
       case Deliver(node, packet) => packet in s.sent
  }

  ghost function StoreAfter(s: Store, a: Action): Store {
    match a
    case Put(node, path, hashes, root, size) => s[path := Written(s, node, path, hashes, root, size)]
    case Delete(node, path) => s[path := Tombstone(s, node, path)]
    case Send(_) => s
    case Deliver(_, packet) => Merged(s, packet.entry)
  }

  ghost function Apply(s: System, a: Action): System
    requires a.node in s.stores
  {
    System(
      s.stores[a.node := StoreAfter(s.stores[a.node], a)],
      if a.Send? then s.sent + Manifest(a.node, s.stores[a.node]) else s.sent)
  }

  ghost predicate IsRun(nodes: set<string>, acts: seq<Action>)
    decreases |acts|, 0
  {
    acts == [] ||
    var before := acts[..|acts| - 1];
    IsRun(nodes, before) && Enabled(Final(nodes, before), acts[|acts| - 1])
  }

  ghost function Final(nodes: set<string>, acts: seq<Action>): (s: System)
    requires IsRun(nodes, acts)
    ensures s.stores.Keys == nodes
    decreases |acts|, 1
  {
    if acts == [] then Init(nodes)
    else Apply(Final(nodes, acts[..|acts| - 1]), acts[|acts| - 1])
  }

  // A path no fork can ever land on: it is not the conflict path of anything for any node.
  ghost predicate UserPath(nodes: set<string>, path: string) {
    forall p, n | n in nodes :: ConflictPath(p, n) != path
  }

  ghost predicate IsEdit(a: Action) {
    a.Put? || a.Delete?
  }

  // Every entry is filed under its own path and was written by one of the nodes.
  ghost predicate WellFormed(s: System, nodes: set<string>) {
    && s.stores.Keys == nodes
    && (forall i, p | i in nodes && p in s.stores[i] ::
          s.stores[i][p].path == p && s.stores[i][p].lastWriter in nodes)
    && (forall k | k in s.sent :: k.from in nodes && k.entry.lastWriter in nodes)
  }

  ghost predicate FiledOk(p: string, e: FileEntry, nodes: set<string>) {
    e.path == p && e.lastWriter in nodes
  }

  lemma StoreAfterFiled(s: Store, a: Action, nodes: set<string>)
    requires forall p | p in s :: FiledOk(p, s[p], nodes)
    requires a.node in nodes && (a.Deliver? ==> a.packet.entry.lastWriter in nodes)
    ensures forall p | p in StoreAfter(s, a) :: FiledOk(p, StoreAfter(s, a)[p], nodes)
  {
    if a.Deliver? {
      MergeMeaning(s, a.packet.entry);
    }
  }

  lemma StepWellFormed(s: System, nodes: set<string>, a: Action)
    requires WellFormed(s, nodes) && Enabled(s, a)
    ensures WellFormed(Apply(s, a), nodes)
  {
    StoreAfterFiled(s.stores[a.node], a, nodes);
    assert forall p | p in StoreAfter(s.stores[a.node], a) :: FiledOk(p, StoreAfter(s.stores[a.node], a)[p], nodes);
  }

  // The clock at a path fork never reaches is only ever advanced: by one for an edit, by a join for a merge.
  lemma UserPathStep(s: System, nodes: set<string>, a: Action, path: string)
    requires WellFormed(s, nodes) && Enabled(s, a) && UserPath(nodes, path)
    ensures var t := Apply(s, a);
        forall i | i in nodes && path in s.stores[i] ::
          path in t.stores[i] && Leq(s.stores[i][path].clock, t.stores[i][path].clock)
    ensures !(IsEdit(a) && a.path == path) && !(a.Deliver? && a.packet.entry.path == path)
        ==> (forall i | i in nodes ::
               && (path in s.stores[i] <==> path in Apply(s, a).stores[i])
               && (path in s.stores[i] ==> Apply(s, a).stores[i][path] == s.stores[i][path]))
  {
    var mine := s.stores[a.node];
    match a {
      case Put(node, p, _, _, _) => IncrementAdvances(ClockAt(mine, p), node);
      case Delete(node, p) => IncrementAdvances(ClockAt(mine, p), node);
      case Send(_) =>
      case Deliver(_, k) =>
        MergeMeaning(mine, k.entry);
    }
  }
}
