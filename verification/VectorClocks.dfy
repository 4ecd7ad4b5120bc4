// vector_clock.hpp/.cpp: per-node counters, their pointwise order and its join.
module VectorClocks {
  import opened Basics

  // The counters_ field: a node that is absent counts as zero.
  type Clock = map<string, u64>

  datatype ClockOrder = Equal | Before | After | Concurrent

  function Get(c: Clock, node: string): u64 {
    if node in c then c[node] else 0
  }

  // Every edit counted by a is counted by b.
  ghost predicate Leq(a: Clock, b: Clock) {
    forall n :: Get(a, n) <= Get(b, n)
  }

  ghost predicate Same(a: Clock, b: Clock) {
    Leq(a, b) && Leq(b, a)
  }

  ghost predicate Comparable(a: Clock, b: Clock) {
    Leq(a, b) || Leq(b, a)
  }

  // What compare() has to decide.
  ghost function Order(a: Clock, b: Clock): ClockOrder {
    if Same(a, b) then Equal
    else if Leq(a, b) then Before
    else if Leq(b, a) then After
    else Concurrent
  }

  // Counters are uint64_t, so the increment wraps.
  function Incremented(c: Clock, node: string): Clock {
    c[node := (Get(c, node) + 1) % TWO64]
  }

  function Max(x: u64, y: u64): u64 {
    if x < y then y else x
  }

  function Join(a: Clock, b: Clock): Clock {
    map n | n in a.Keys + b.Keys :: Max(Get(a, n), Get(b, n))
  }

  // The object itself: counters_ is updated in place.
  class VectorClock {
    var counters: Clock

    constructor (initial: Clock)
      ensures counters == initial
    {
      counters := initial;
    }

    method Increment(node: string)
      modifies this
      ensures counters == Incremented(old(counters), node)
    {
      var it := if node in counters then counters[node] else 0;
      counters := counters[node := (it + 1) % TWO64];
    }

    method Set(node: string, value: u64)
      modifies this
      ensures counters == old(counters)[node := value]
      ensures forall n :: Get(counters, n) == if n == node then value else old(Get(counters, n))
    {
      counters := counters[node := value];
    }

    method Merge(other: VectorClock)
      modifies this
      ensures counters == Join(old(counters), old(other.counters))
      ensures other != this ==> other.counters == old(other.counters)
    {
      var theirs := other.counters;
      var pending := theirs.Keys;
      while pending != {}
        invariant pending <= theirs.Keys
        invariant counters.Keys == old(counters).Keys + (theirs.Keys - pending)
        invariant forall n | n in counters ::
            counters[n] == if n in pending then Get(old(counters), n) else Max(Get(old(counters), n), Get(theirs, n))
        decreases pending
      {
        var node :| node in pending;
        var val := theirs[node];
        if node !in counters || counters[node] < val {
          counters := counters[node := val];
        }
        pending := pending - {node};
      }
    }

    static method Compare(a: VectorClock, b: VectorClock) returns (order: ClockOrder)
      ensures order == Order(a.counters, b.counters)
    {
      var aLess, bLess := false, false;
      var seen := a.counters.Keys + b.counters.Keys;
      var pending := seen;
      while pending != {}
        invariant pending <= seen
        invariant aLess <==> exists n | n in seen - pending :: Get(a.counters, n) < Get(b.counters, n)
        invariant bLess <==> exists n | n in seen - pending :: Get(b.counters, n) < Get(a.counters, n)
        decreases pending
      {
        var n :| n in pending;
        var av, bv := Get(a.counters, n), Get(b.counters, n);
        ghost var done := seen - pending;
        pending := pending - {n};
        assert seen - pending == done + {n};
        if av < bv { aLess := true; }
        if bv < av { bLess := true; }
      }
      LessByKey(a.counters, b.counters);
      LessByKey(b.counters, a.counters);
      assert aLess <==> !Leq(b.counters, a.counters);
      assert bLess <==> !Leq(a.counters, b.counters);
      if !aLess && !bLess { return Equal; }
      if aLess && !bLess { return Before; }
      if bLess && !aLess { return After; }
      return Concurrent;
    }
  }

  // Only nodes recorded in one of the clocks can tell them apart.
  lemma LessByKey(a: Clock, b: Clock)
    ensures !Leq(b, a) <==> exists n | n in a.Keys + b.Keys :: Get(a, n) < Get(b, n)
  {
    if !Leq(b, a) {
      var n :| Get(b, n) > Get(a, n);
      assert n in a.Keys + b.Keys;
    }
  }

  // Join is the least upper bound of the causal order.
  lemma JoinIsLub(a: Clock, b: Clock)
    ensures Leq(a, Join(a, b)) && Leq(b, Join(a, b))
    ensures forall c :: Leq(a, c) && Leq(b, c) ==> Leq(Join(a, b), c)
    ensures forall n :: Get(Join(a, b), n) == Max(Get(a, n), Get(b, n))
  {
    var j := Join(a, b);
    assert forall n :: Get(j, n) == Max(Get(a, n), Get(b, n));
    forall c | Leq(a, c) && Leq(b, c)
      ensures Leq(j, c)
    {
      forall n ensures Get(j, n) <= Get(c, n) {
        assert Get(a, n) <= Get(c, n) && Get(b, n) <= Get(c, n);
      }
    }
  }

  lemma LeqTransitive(a: Clock, b: Clock, c: Clock)
    requires Leq(a, b) && Leq(b, c)
    ensures Leq(a, c)
  {
    forall n ensures Get(a, n) <= Get(c, n) {
      assert Get(a, n) <= Get(b, n) <= Get(c, n);
    }
  }

  // A local edit moves the clock strictly forward exactly when the counter does not wrap.
  lemma IncrementAdvances(c: Clock, node: string)
    ensures Order(c, Incremented(c, node)) == Before <==> Get(c, node) + 1 < TWO64
    ensures forall n | n != node :: Get(Incremented(c, node), n) == Get(c, n)
  {
    var d := Incremented(c, node);
    if Get(c, node) + 1 < TWO64 {
      assert Get(d, node) > Get(c, node);
      assert Leq(c, d);
    } else {
      assert Get(d, node) < Get(c, node);
    }
  }
}
