// merkle_tree.hpp/.cpp: a hash tree over a file's chunk hashes, and the pruned comparison of two trees.
module MerkleTrees {
  import opened Basics

  // std::unique_ptr<MerkleNode>: leafIndex is a C++ int, and a node is a leaf iff it is not negative.
  datatype MerkleNode = Null | Node(hash: Digest, left: MerkleNode, right: MerkleNode, leafIndex: int)
  {
    predicate IsLeaf() {
      Node? && leafIndex >= 0
    }
  }

  // static_cast<int>(size_t)
  function ToInt(n: nat): int {
    var m := n % TWO32;
    if m < 0x8000_0000 then m else m - TWO32
  }

  // sha256::combine: the hash of the two digests in a row.
  function Combine(h: HashFn, left: Digest, right: Digest): Digest {
    h(left + right)
  }

  function BuildRange(h: HashFn, hashes: seq<Digest>, lo: nat, hi: nat): (node: MerkleNode)
    requires lo < hi <= |hashes|
    ensures node.Node?
    decreases hi - lo
  {
    if hi - lo == 1 then Node(hashes[lo], Null, Null, ToInt(lo))
    else
      var mid := lo + (hi - lo) / 2;
      var left, right := BuildRange(h, hashes, lo, mid), BuildRange(h, hashes, mid, hi);
      Node(Combine(h, left.hash, right.hash), left, right, -1)
  }

  datatype MerkleTree = MerkleTree(root: MerkleNode, leafCount: nat)

  function Build(h: HashFn, hashes: seq<Digest>): MerkleTree {
    if hashes == [] then MerkleTree(Null, 0) else MerkleTree(BuildRange(h, hashes, 0, |hashes|), |hashes|)
  }

  // ---------- The comparison ----------

  // What collect_diffs appends for one pair of nodes.
  function Diffs(a: MerkleNode, b: MerkleNode): seq<int> {
    if a.Null? || b.Null? || a.hash == b.hash then []
    else if a.IsLeaf() && b.IsLeaf() then [a.leafIndex]
    else if a.IsLeaf() || b.IsLeaf() then [if a.IsLeaf() then a.leafIndex else b.leafIndex]
    else Diffs(a.left, b.left) + Diffs(a.right, b.right)
  }

  // The number of calls of collect_diffs.
  function Visits(a: MerkleNode, b: MerkleNode): nat {
    if a.Null? || b.Null? || a.hash == b.hash || a.IsLeaf() || b.IsLeaf() then 1
    else 1 + Visits(a.left, b.left) + Visits(a.right, b.right)
  }

  // The vector shared by all calls.
  class IntVector {
    var items: seq<int>

    constructor ()
      ensures items == []
    {
      items := [];
    }

    method PushBack(x: int)
      modifies this
      ensures items == old(items) + [x]
    {
      items := items + [x];
    }
  }

  method CollectDiffs(a: MerkleNode, b: MerkleNode, out: IntVector) returns (calls: nat)
    modifies out
    ensures out.items == old(out.items) + Diffs(a, b)
    ensures calls == Visits(a, b)
  {
    calls := 1;
    if a.Null? || b.Null? { return; }
    if a.hash == b.hash { return; }
    if a.IsLeaf() && b.IsLeaf() {
      out.PushBack(a.leafIndex);
      return;
    }
    if a.IsLeaf() || b.IsLeaf() {
      out.PushBack(if a.IsLeaf() then a.leafIndex else b.leafIndex);
      return;
    }
    InteriorPair(a, b, out.items);
    var l := CollectDiffs(a.left, b.left, out);
    var r := CollectDiffs(a.right, b.right, out);
    calls := calls + l + r;
  }

  lemma {:induction false} InteriorPair(a: MerkleNode, b: MerkleNode, before: seq<int>)
    requires a.Node? && b.Node? && a.hash != b.hash && !a.IsLeaf() && !b.IsLeaf()
    ensures before + Diffs(a, b) == before + Diffs(a.left, b.left) + Diffs(a.right, b.right)
    ensures Visits(a, b) == 1 + Visits(a.left, b.left) + Visits(a.right, b.right)
  {
    var l, r := Diffs(a.left, b.left), Diffs(a.right, b.right);
    assert Diffs(a, b) == l + r;
    assert before + (l + r) == before + l + r;
  }

  method DiffLeafIndices(a: MerkleTree, b: MerkleTree) returns (out: seq<int>)
    ensures out == DiffOf(a, b)
  {
    var v := new IntVector();
    if a.root.Null? || b.root.Null? || a.leafCount != b.leafCount { return v.items; }
    var _ := CollectDiffs(a.root, b.root, v);
    out := v.items;
  }

  function DiffOf(a: MerkleTree, b: MerkleTree): seq<int> {
    if a.root.Null? || b.root.Null? || a.leafCount != b.leafCount then [] else Diffs(a.root, b.root)
  }

  // The number of changed chunks that ingest_file reports.
  method CountChanged(prev: seq<Digest>, hashes: seq<Digest>) returns (changed: nat)
    requires |prev| == |hashes|
    ensures changed == |ChangedIn(prev, hashes, 0, |hashes|)|
  {
    changed := 0;
    for i := 0 to |hashes|
      invariant changed == |ChangedIn(prev, hashes, 0, i)|
    {
      ChangedSnoc(prev, hashes, 0, i);
      if prev[i] != hashes[i] { changed := changed + 1; }
    }
  }

  // ---------- What the comparison must find ----------

  // The indices in lo..hi at which the two lists differ, ascending.
  function ChangedIn(x: seq<Digest>, y: seq<Digest>, lo: nat, hi: nat): seq<int>
    requires lo <= hi <= |x| == |y|
    decreases hi - lo
  {
    if lo == hi then [] else (if x[lo] != y[lo] then [lo] else []) + ChangedIn(x, y, lo + 1, hi)
  }

  lemma {:induction false} ChangedMeaning(x: seq<Digest>, y: seq<Digest>, lo: nat, hi: nat)
    requires lo <= hi <= |x| == |y|
    ensures forall i :: i in ChangedIn(x, y, lo, hi) <==> lo <= i < hi && x[i] != y[i]
    ensures Ascending(ChangedIn(x, y, lo, hi))
    decreases hi - lo
  {
    if lo < hi {
      ChangedMeaning(x, y, lo + 1, hi);
      var rest := ChangedIn(x, y, lo + 1, hi);
      assert forall k | 0 <= k < |rest| :: rest[k] in rest;
    }
  }

  lemma {:induction false} ChangedSplit(x: seq<Digest>, y: seq<Digest>, lo: nat, mid: nat, hi: nat)
    requires lo <= mid <= hi <= |x| == |y|
    ensures ChangedIn(x, y, lo, hi) == ChangedIn(x, y, lo, mid) + ChangedIn(x, y, mid, hi)
    decreases mid - lo
  {
    if lo < mid { ChangedSplit(x, y, lo + 1, mid, hi); }
  }

  lemma ChangedSnoc(x: seq<Digest>, y: seq<Digest>, lo: nat, hi: nat)
    requires lo <= hi < |x| == |y|
    ensures ChangedIn(x, y, lo, hi + 1) == ChangedIn(x, y, lo, hi) + if x[hi] != y[hi] then [hi] else []
  {
    ChangedSplit(x, y, lo, hi, hi + 1);
    assert ChangedIn(x, y, hi + 1, hi + 1) == [];
  }

  ghost predicate Interior(a: MerkleNode) {
    a.Node? && a.left.Node? && a.right.Node?
  }

  // Somewhere in the same position of the two trees, the 64 bytes of two child hashes differ and have the
  // same hash.
  ghost predicate CollidesIn(h: HashFn, a: MerkleNode, b: MerkleNode) {
    Interior(a) && Interior(b) &&
    (ParentsCollide(h, a, b) || CollidesIn(h, a.left, b.left) || CollidesIn(h, a.right, b.right))
  }

  ghost predicate ParentsCollide(h: HashFn, a: MerkleNode, b: MerkleNode)
    requires Interior(a) && Interior(b)
  {
    && a.left.hash + a.right.hash != b.left.hash + b.right.hash
    && h(a.left.hash + a.right.hash) == h(b.left.hash + b.right.hash)
  }

  ghost predicate FitsInt(hashes: seq<Digest>) {
    |hashes| <= 0x8000_0000
  }

  // Trees over equally long lists have the same shape: the leaf/interior mismatch cannot happen.
  ghost predicate SameShape(a: MerkleNode, b: MerkleNode) {
    match (a, b)
    case (Null, Null) => true
    case (Node(_, l, r, i), Node(_, l', r', j)) => i == j && SameShape(l, l') && SameShape(r, r')
    case _ => false
  }

  lemma {:induction false} BuildSameShape(h: HashFn, x: seq<Digest>, y: seq<Digest>, lo: nat, hi: nat)
    requires lo < hi <= |x| == |y|
    ensures SameShape(BuildRange(h, x, lo, hi), BuildRange(h, y, lo, hi))
    decreases hi - lo
  {
    if hi - lo > 1 {
      var mid := lo + (hi - lo) / 2;
      BuildSameShape(h, x, y, lo, mid);
      BuildSameShape(h, x, y, mid, hi);
    }
  }

  // Leaves carry the listed hashes in order, and every other node the hash of its two children's hashes.
  ghost predicate HashesChildren(h: HashFn, a: MerkleNode) {
    a.Null? || (a.left.Null? && a.right.Null?) ||
    (a.left.Node? && a.right.Node? && a.hash == h(a.left.hash + a.right.hash) && HashesChildren(h, a.left) && HashesChildren(h, a.right))
  }

  function LeafHashes(a: MerkleNode): seq<Digest> {
    if a.Null? then [] else if a.left.Null? && a.right.Null? then [a.hash] else LeafHashes(a.left) + LeafHashes(a.right)
  }

  lemma {:induction false} RangeHashesChildren(h: HashFn, x: seq<Digest>, lo: nat, hi: nat)
    requires lo < hi <= |x|
    ensures HashesChildren(h, BuildRange(h, x, lo, hi)) && LeafHashes(BuildRange(h, x, lo, hi)) == x[lo..hi]
    decreases hi - lo
  {
    if hi - lo > 1 {
      var mid := lo + (hi - lo) / 2;
      RangeHashesChildren(h, x, lo, mid);
      RangeHashesChildren(h, x, mid, hi);
      assert x[lo..hi] == x[lo..mid] + x[mid..hi];
    } else {
      assert x[lo..hi] == [x[lo]];
    }
  }

  lemma BuildHashesChildren(h: HashFn, x: seq<Digest>)
    ensures HashesChildren(h, Build(h, x).root) && LeafHashes(Build(h, x).root) == x && Build(h, x).leafCount == |x|
  {
    if x != [] { RangeHashesChildren(h, x, 0, |x|); }
  }

  // The root of a list, with no tree: a single hash, or the hash of the two halves' roots, the left half
  // never the longer.
  function RootHash(h: HashFn, s: seq<Digest>): Digest
    requires s != []
  {
    if |s| == 1 then s[0] else h(RootHash(h, s[..|s| / 2]) + RootHash(h, s[|s| / 2..]))
  }

  lemma Halves<T>(x: seq<T>, lo: nat, k: nat, hi: nat)
    requires lo + k <= hi <= |x|
    ensures x[lo..hi][..k] == x[lo..lo + k] && x[lo..hi][k..] == x[lo + k..hi]
  {
  }

  lemma {:induction false} RangeHash(h: HashFn, x: seq<Digest>, lo: nat, hi: nat)
    requires lo < hi <= |x|
    ensures BuildRange(h, x, lo, hi).hash == RootHash(h, x[lo..hi])
    decreases hi - lo
  {
    if hi - lo > 1 {
      var k := (hi - lo) / 2;
      RangeHash(h, x, lo, lo + k);
      RangeHash(h, x, lo + k, hi);
      Halves(x, lo, k, hi);
    }
  }

  // So the recorded root is a function of the listed hashes alone.
  lemma BuildRootHash(h: HashFn, x: seq<Digest>)
    requires x != []
    ensures Build(h, x).root.Node? && Build(h, x).root.hash == RootHash(h, x)
  {
    RangeHash(h, x, 0, |x|);
    assert x[0..|x|] == x;
  }

  // A count is converted to the int that is the same modulo 2^32.
  lemma ToIntMeaning(n: nat)
    ensures -0x8000_0000 <= ToInt(n) < 0x8000_0000 && (n - ToInt(n)) % TWO32 == 0
  {
    var m := n % TWO32;
    assert n == TWO32 * (n / TWO32) + m;
    if m >= 0x8000_0000 { assert n - ToInt(n) == TWO32 * (n / TWO32 + 1); }
  }

  // The trees of one range of both lists, and the split of that range.
  ghost function DiffsIn(h: HashFn, x: seq<Digest>, y: seq<Digest>, lo: nat, hi: nat): seq<int>
    requires lo < hi <= |x| == |y|
  {
    Diffs(BuildRange(h, x, lo, hi), BuildRange(h, y, lo, hi))
  }

  ghost function VisitsIn(h: HashFn, x: seq<Digest>, y: seq<Digest>, lo: nat, hi: nat): nat
    requires lo < hi <= |x| == |y|
  {
    Visits(BuildRange(h, x, lo, hi), BuildRange(h, y, lo, hi))
  }

  ghost predicate SameHash(h: HashFn, x: seq<Digest>, y: seq<Digest>, lo: nat, hi: nat)
    requires lo < hi <= |x| == |y|
  {
    BuildRange(h, x, lo, hi).hash == BuildRange(h, y, lo, hi).hash
  }

  lemma CompareLeaves(h: HashFn, x: seq<Digest>, y: seq<Digest>, lo: nat)
    requires lo < |x| == |y| && FitsInt(x)
    ensures DiffsIn(h, x, y, lo, lo + 1) == ChangedIn(x, y, lo, lo + 1)
    ensures VisitsIn(h, x, y, lo, lo + 1) == 1
    ensures SameHash(h, x, y, lo, lo + 1) <==> x[lo] == y[lo]
  {
    assert ChangedIn(x, y, lo + 1, lo + 1) == [];
  }

  ghost predicate CollidesRange(h: HashFn, x: seq<Digest>, y: seq<Digest>, lo: nat, hi: nat)
    requires lo < hi <= |x| == |y|
  {
    CollidesIn(h, BuildRange(h, x, lo, hi), BuildRange(h, y, lo, hi))
  }

  lemma CompareInterior(h: HashFn, x: seq<Digest>, y: seq<Digest>, lo: nat, mid: nat, hi: nat)
    requires lo + 1 < hi <= |x| == |y| && mid == lo + (hi - lo) / 2
    ensures SameHash(h, x, y, lo, hi) ==> DiffsIn(h, x, y, lo, hi) == [] && VisitsIn(h, x, y, lo, hi) == 1
    ensures !SameHash(h, x, y, lo, hi) ==>
        && DiffsIn(h, x, y, lo, hi) == DiffsIn(h, x, y, lo, mid) + DiffsIn(h, x, y, mid, hi)
        && VisitsIn(h, x, y, lo, hi) == 1 + VisitsIn(h, x, y, lo, mid) + VisitsIn(h, x, y, mid, hi)
  {
  }

  lemma PairsDiffer(a: Digest, b: Digest, c: Digest, d: Digest)
    ensures a + b == c + d <==> a == c && b == d
  {
    assert (a + b)[..32] == a && (a + b)[32..] == b && (c + d)[..32] == c && (c + d)[32..] == d;
  }

  // A collision of an interior pair of nodes is one below it, or one of the two nodes themselves.
  lemma CollisionInterior(h: HashFn, x: seq<Digest>, y: seq<Digest>, lo: nat, mid: nat, hi: nat)
    requires lo + 1 < hi <= |x| == |y| && mid == lo + (hi - lo) / 2
    ensures CollidesRange(h, x, y, lo, hi) <==>
        || (SameHash(h, x, y, lo, hi) && !(SameHash(h, x, y, lo, mid) && SameHash(h, x, y, mid, hi)))
        || CollidesRange(h, x, y, lo, mid) || CollidesRange(h, x, y, mid, hi)
    ensures SameHash(h, x, y, lo, mid) && SameHash(h, x, y, mid, hi) ==> SameHash(h, x, y, lo, hi)
  {
    var a, b := BuildRange(h, x, lo, hi), BuildRange(h, y, lo, hi);
    assert Interior(a) && Interior(b);
    assert a.hash == h(a.left.hash + a.right.hash) && b.hash == h(b.left.hash + b.right.hash);
    PairsDiffer(a.left.hash, a.right.hash, b.left.hash, b.right.hash);
  }

  ghost predicate Ascending(d: seq<int>) {
    forall j, k | 0 <= j < k < |d| :: d[j] < d[k]
  }

  lemma AscendingConcat(d: seq<int>, e: seq<int>, mid: int)
    requires Ascending(d) && Ascending(e)
    requires forall i | i in d :: i < mid
    requires forall i | i in e :: mid <= i
    ensures Ascending(d + e)
  {
    assert forall k | 0 <= k < |d| :: d[k] in d;
    assert forall k | 0 <= k < |e| :: e[k] in e;
  }

  lemma {:induction false} DiffsAreChanges(h: HashFn, x: seq<Digest>, y: seq<Digest>, lo: nat, hi: nat)
    requires lo < hi <= |x| == |y| && FitsInt(x)
    ensures forall i | i in DiffsIn(h, x, y, lo, hi) :: lo <= i < hi && x[i] != y[i]
    ensures Ascending(DiffsIn(h, x, y, lo, hi))
    decreases hi - lo
  {
    if hi - lo > 1 {
      var mid := lo + (hi - lo) / 2;
      DiffsAreChanges(h, x, y, lo, mid);
      DiffsAreChanges(h, x, y, mid, hi);
      CompareInterior(h, x, y, lo, mid, hi);
      AscendingConcat(DiffsIn(h, x, y, lo, mid), DiffsIn(h, x, y, mid, hi), mid);
    } else {
      CompareLeaves(h, x, y, lo);
      ChangedMeaning(x, y, lo, hi);
    }
  }

  // What the comparison misses, and that only a collision makes it miss anything.
  lemma {:induction false} MissesExactlyInCollisions(h: HashFn, x: seq<Digest>, y: seq<Digest>, lo: nat, hi: nat)
    requires lo < hi <= |x| == |y| && FitsInt(x)
    ensures !CollidesRange(h, x, y, lo, hi) ==> DiffsIn(h, x, y, lo, hi) == ChangedIn(x, y, lo, hi)
    ensures CollidesRange(h, x, y, lo, hi) ==> |DiffsIn(h, x, y, lo, hi)| < |ChangedIn(x, y, lo, hi)|
    ensures |DiffsIn(h, x, y, lo, hi)| <= |ChangedIn(x, y, lo, hi)|
    ensures SameHash(h, x, y, lo, hi) && !CollidesRange(h, x, y, lo, hi) ==> ChangedIn(x, y, lo, hi) == []
    ensures ChangedIn(x, y, lo, hi) == [] ==> SameHash(h, x, y, lo, hi)
    decreases hi - lo
  {
    if hi - lo > 1 {
      var mid := lo + (hi - lo) / 2;
      MissesExactlyInCollisions(h, x, y, lo, mid);
      MissesExactlyInCollisions(h, x, y, mid, hi);
      ChangedSplit(x, y, lo, mid, hi);
      CompareInterior(h, x, y, lo, mid, hi);
      CollisionInterior(h, x, y, lo, mid, hi);
    } else {
      CompareLeaves(h, x, y, lo);
      ChangedMeaning(x, y, lo, hi);
    }
  }

  // diff_leaf_indices on lists of the same length: whatever it reports has changed, in ascending order,
  // and it reports every change - and as many as the linear count - exactly unless, somewhere in the same
  // position of the two trees, two different pairs of child hashes, 64 bytes each, have the same hash.
  lemma DiffIsExactOrCollision(h: HashFn, x: seq<Digest>, y: seq<Digest>)
    requires |x| == |y| && FitsInt(x)
    ensures var a, b := Build(h, x), Build(h, y);
        var d := DiffOf(a, b);
        && (forall i | i in d :: 0 <= i < |x| && x[i] != y[i])
        && Ascending(d)
        && (d == ChangedIn(x, y, 0, |x|) <==> !CollidesIn(h, a.root, b.root))
        && (|d| == |ChangedIn(x, y, 0, |x|)| <==> !CollidesIn(h, a.root, b.root))
  {
    if x != [] {
      DiffsAreChanges(h, x, y, 0, |x|);
      MissesExactlyInCollisions(h, x, y, 0, |x|);
    }
  }

  // Files with different numbers of chunks have nothing reported, whatever differs.
  lemma UnequalCountsReportNothing(h: HashFn, x: seq<Digest>, y: seq<Digest>)
    requires |x| != |y|
    ensures DiffOf(Build(h, x), Build(h, y)) == []
  {
  }

  ghost predicate IndicesFit(a: MerkleNode) {
    a.Null? || (a.leafIndex < 0x8000_0000 && IndicesFit(a.left) && IndicesFit(a.right))
  }

  lemma {:induction false} LeavesFitInt(h: HashFn, x: seq<Digest>, lo: nat, hi: nat)
    requires lo < hi <= |x|
    ensures IndicesFit(BuildRange(h, x, lo, hi))
    decreases hi - lo
  {
    if hi - lo > 1 {
      LeavesFitInt(h, x, lo, lo + (hi - lo) / 2);
      LeavesFitInt(h, x, lo + (hi - lo) / 2, hi);
    }
  }

  lemma {:induction false} ReportedIndices(a: MerkleNode, b: MerkleNode)
    requires IndicesFit(a) && IndicesFit(b)
    ensures forall i | i in Diffs(a, b) :: i < 0x8000_0000
  {
    if a.Node? && b.Node? {
      ReportedIndices(a.left, b.left);
      ReportedIndices(a.right, b.right);
    }
  }

  // 2^31 chunks are the limit: no change at an index that does not fit the int is ever reported.
  lemma LargeIndexIsMissed(h: HashFn, x: seq<Digest>, y: seq<Digest>)
    requires |x| == |y|
    ensures forall k | 0x8000_0000 <= k < |x| && x[k] != y[k] ::
              k !in DiffOf(Build(h, x), Build(h, y)) && k in ChangedIn(x, y, 0, |x|)
  {
    if !FitsInt(x) {
      LeavesFitInt(h, x, 0, |x|);
      LeavesFitInt(h, y, 0, |y|);
      ReportedIndices(Build(h, x).root, Build(h, y).root);
      ChangedMeaning(x, y, 0, |x|);
    }
  }

  // Files whose trees have as many leaves: equal lists have equal roots, and unless two different pairs of
  // child hashes in the same position have the same parent hash, equal roots mean equal lists.
  lemma RootDecidesEquality(h: HashFn, x: seq<Digest>, y: seq<Digest>)
    requires |x| == |y| && x != []
    ensures var a, b := Build(h, x).root, Build(h, y).root;
        && (x == y ==> a.hash == b.hash)
        && (a.hash == b.hash ==> x == y || CollidesIn(h, a, b))
        && (x == y ==> !CollidesIn(h, a, b))
  {
    if SameHash(h, x, y, 0, |x|) && !CollidesRange(h, x, y, 0, |x|) {
      SameHashSameList(h, x, y, 0, |x|);
      assert x[0..|x|] == x && y[0..|y|] == y;
    }
    NoSelfCollision(h, Build(h, x).root);
  }

  lemma {:induction false} NoSelfCollision(h: HashFn, a: MerkleNode)
    ensures !CollidesIn(h, a, a)
  {
    if Interior(a) {
      NoSelfCollision(h, a.left);
      NoSelfCollision(h, a.right);
    }
  }

  // The equal number of leaves is needed: two leaves have the root of the one leaf that is their parent.
  lemma RootsNeedEqualCounts(h: HashFn, left: Digest, right: Digest)
    ensures Build(h, [left, right]).root.hash == Build(h, [h(left + right)]).root.hash
  {
    var x := [left, right];
    assert BuildRange(h, x, 0, 1).hash == left && BuildRange(h, x, 1, 2).hash == right;
  }

  lemma {:induction false} SameHashSameList(h: HashFn, x: seq<Digest>, y: seq<Digest>, lo: nat, hi: nat)
    requires lo < hi <= |x| == |y| && SameHash(h, x, y, lo, hi) && !CollidesRange(h, x, y, lo, hi)
    ensures x[lo..hi] == y[lo..hi]
    decreases hi - lo
  {
    if hi - lo > 1 {
      var mid := lo + (hi - lo) / 2;
      CollisionInterior(h, x, y, lo, mid, hi);
      SameHashSameList(h, x, y, lo, mid);
      SameHashSameList(h, x, y, mid, hi);
      assert x[lo..hi] == x[lo..mid] + x[mid..hi] && y[lo..hi] == y[lo..mid] + y[mid..hi];
    }
  }

  // ---------- The work done ----------

  // ceil(log2 n): the number of doublings needed to reach n.
  function CeilLog2(n: nat): nat
    requires n >= 1
  {
    if n == 1 then 0 else 1 + CeilLog2(n - n / 2)
  }

  lemma {:induction false} CeilLog2Meaning(n: nat)
    requires n >= 1
    ensures n <= Pow2(CeilLog2(n)) && (n > 1 ==> Pow2(CeilLog2(n) - 1) < n)
  {
    if n > 1 { CeilLog2Meaning(n - n / 2); }
  }

  lemma {:induction false} CeilLog2Monotone(m: nat, n: nat)
    requires 1 <= m <= n
    ensures CeilLog2(m) <= CeilLog2(n)
  {
    if m > 1 { CeilLog2Monotone(m - m / 2, n - n / 2); }
  }

  lemma {:induction false} VisitsBounded(h: HashFn, x: seq<Digest>, y: seq<Digest>, lo: nat, hi: nat)
    requires lo < hi <= |x| == |y| && FitsInt(x)
    ensures VisitsIn(h, x, y, lo, hi) <= 1 + 2 * |DiffsIn(h, x, y, lo, hi)| * CeilLog2(hi - lo)
    ensures !SameHash(h, x, y, lo, hi) ==> |DiffsIn(h, x, y, lo, hi)| >= 1
    decreases hi - lo
  {
    if hi - lo > 1 {
      var n := hi - lo;
      var mid := lo + n / 2;
      CompareInterior(h, x, y, lo, mid, hi);
      if !SameHash(h, x, y, lo, hi) {
        VisitsBounded(h, x, y, lo, mid);
        VisitsBounded(h, x, y, mid, hi);
        CeilLog2Monotone(n / 2, n - n / 2);
        BoundStep(|DiffsIn(h, x, y, lo, mid)|, |DiffsIn(h, x, y, mid, hi)|, CeilLog2(n / 2), CeilLog2(n));
      }
    } else {
      CompareLeaves(h, x, y, lo);
    }
  }

  lemma BoundStep(dl: nat, dr: nat, j: nat, k: nat)
    requires dl + dr >= 1 && j <= k - 1
    ensures 3 + 2 * dl * j + 2 * dr * (k - 1) <= 1 + 2 * (dl + dr) * k
  {
    assert dl * j <= dl * (k - 1);
    assert (dl + dr) * k == dl * (k - 1) + dr * (k - 1) + (dl + dr);
  }

  // Finding d changed chunks among n takes at most 1 + 2 * d * ceil(log2 n) node comparisons.
  lemma DiffIsLogarithmic(h: HashFn, x: seq<Digest>, y: seq<Digest>)
    requires |x| == |y| && x != [] && FitsInt(x)
    ensures var a, b := Build(h, x), Build(h, y);
        Visits(a.root, b.root) <= 1 + 2 * |DiffOf(a, b)| * CeilLog2(|x|)
  {
    VisitsBounded(h, x, y, 0, |x|);
  }
}
