// Every interleaving of a session: the frames always arrive as expected, no side ever fails or gets
// stuck, and every complete run ends in the same state.
module SessionRuns {
  import opened Basics
  import opened Text
  import opened CrdtStores
  import opened Manifests
  import opened FileStores
  import opened Framing
  import opened SyncEngines
  import opened SessionPhases
  import opened SyncSessions

  // ---------- One side ----------

  lemma SentIsShort(x: Peer, y: Peer)
    requires Ready(x) && Ready(y)
    ensures forall i | 0 <= i < |Sent(x, y)| :: |Sent(x, y)[i].data| < TWO32
  {
    ExchangeCompletes(x, y);
    forall i | 0 <= i < |Sent(x, y)|
      ensures |Sent(x, y)[i].data| < TWO32
    {
      assert Sent(x, y)[i] in Sent(x, y);
    }
  }

  lemma FilesMaterialize(x: Peer, y: Peer)
    requires Ready(x) && Ready(y)
    ensures Materialized(MergeOf(x, y).store, Received(x.blobs, Sent(x, y)), x.files, MergeOf(x, y).paths).Ok?
  {
    ExchangeCompletes(x, y);
    MaterializeNeverFails(MergeOf(x, y).store, Received(x.blobs, Sent(x, y)), x.files, MergeOf(x, y).paths);
  }

  lemma SendStep(x: Peer, y: Peer, k: nat)
    requires Ready(x) && Ready(y) && k < 8 && k % 2 == 0
    ensures Outgoing(At(x, y, k)) == Some(Frames(x, y)[k / 2])
    ensures AfterSend(At(x, y, k)) == At(x, y, k + 1)
  {
    if k == 2 {
      ExchangeCompletes(x, y);
    } else if k == 6 {
      FilesMaterialize(x, y);
    }
  }

  lemma ReceiveStep(x: Peer, y: Peer, k: nat)
    requires Ready(x) && Ready(y) && k < 8 && k % 2 == 1
    ensures AfterReceive(At(x, y, k), Frames(y, x)[k / 2]) == At(x, y, k + 1)
  {
    if k == 1 {
      ManifestRoundTrip(y.nodeId, AllEntries(y.store));
    } else if k == 3 {
      HashListRoundTrip(Wanted(y, x));
    } else if k == 5 {
      SentIsShort(x, y);
      ChunkDataRoundTrip(Sent(x, y));
    }
  }

  // No side has received more than the other has sent.
  ghost predicate Apart(k: nat, l: nat) {
    k <= 8 && l <= 8 && ReceivedBy(k) <= SentBy(l) && ReceivedBy(l) <= SentBy(k)
  }

  // A side that has taken k steps can take another, the other having taken l.
  predicate CanMove(k: nat, l: nat) {
    k < 8 && (k % 2 == 0 || ReceivedBy(k) < SentBy(l))
  }

  lemma Moves(mine: Peer, next: Peer, other: Peer, ins: seq<Frame>, outs: seq<Frame>, k: nat, l: nat)
    requires mine.Peer? && mine.pc == k < 8 && l <= 8 && ReceivedBy(k) <= SentBy(l) && |ins| == |outs| == 4
    requires CanMove(k, l) || (other.Peer? && other.pc == l)
    requires k % 2 == 0 ==> Outgoing(mine) == Some(outs[k / 2]) && AfterSend(mine) == next
    requires k % 2 == 1 ==> AfterReceive(mine, ins[k / 2]) == next
    ensures MoveOf(mine, ins[ReceivedBy(k)..SentBy(l)], other) ==
        if CanMove(k, l) then Go(next, ins[ReceivedBy(k + 1)..SentBy(l)], outs[SentBy(k)..SentBy(k + 1)]) else Wait
  {
    if k % 2 == 0 {
      assert outs[SentBy(k)..SentBy(k + 1)] == [outs[k / 2]];
    } else {
      assert outs[SentBy(k)..SentBy(k + 1)] == [];
      if ReceivedBy(k) < SentBy(l) {
        assert ins[ReceivedBy(k)..SentBy(l)][1..] == ins[ReceivedBy(k + 1)..SentBy(l)];
      }
    }
  }

  // What x does next, its peer having taken l steps.
  lemma SideStep(x: Peer, y: Peer, k: nat, l: nat)
    requires Ready(x) && Ready(y) && k < 8 && Apart(k, l)
    ensures MoveOf(At(x, y, k), Frames(y, x)[ReceivedBy(k)..SentBy(l)], At(y, x, l)) ==
        if CanMove(k, l)
        then Go(At(x, y, k + 1), Frames(y, x)[ReceivedBy(k + 1)..SentBy(l)], Frames(x, y)[SentBy(k)..SentBy(k + 1)])
        else Wait
  {
    if k % 2 == 0 { SendStep(x, y, k); } else { ReceiveStep(x, y, k); }
    Moves(At(x, y, k), At(x, y, k + 1), At(y, x, l), Frames(y, x), Frames(x, y), k, l);
  }

  // ---------- The whole run ----------

  // n when the two sides have taken k and l steps.
  ghost function NetAt(x: Peer, y: Peer, k: nat, l: nat): Net
    requires x.Peer? && y.Peer? && Apart(k, l)
  {
    Net(At(x, y, k), At(y, x, l), Frames(y, x)[ReceivedBy(k)..SentBy(l)], Frames(x, y)[ReceivedBy(l)..SentBy(k)])
  }

  lemma LeftStep(x: Peer, y: Peer, k: nat, l: nat)
    requires Ready(x) && Ready(y) && Apart(k, l)
    ensures var n := NetAt(x, y, k, l);
        var m := MoveOf(n.a, n.toA, n.b);
        if !CanMove(k, l) then m.Wait?
        else Apart(k + 1, l) && m.Go? && Net(m.mine, n.b, m.inbox, n.toB + m.out) == NetAt(x, y, k + 1, l)
  {
    if k < 8 {
      SideStep(x, y, k, l);
      Continue(Frames(x, y), ReceivedBy(l), SentBy(k), SentBy(k + 1));
    }
  }

  lemma Continue(fs: seq<Frame>, i: nat, j: nat, k: nat)
    requires i <= j <= k <= |fs|
    ensures fs[i..j] + fs[j..k] == fs[i..k]
  {
  }

  function Swapped(n: Net): Net {
    Net(n.b, n.a, n.toB, n.toA)
  }

  lemma RightStep(x: Peer, y: Peer, k: nat, l: nat)
    requires Ready(x) && Ready(y) && Apart(k, l)
    ensures var n := NetAt(x, y, k, l);
        var m := MoveOf(n.b, n.toB, n.a);
        if !CanMove(l, k) then m.Wait?
        else Apart(k, l + 1) && m.Go? && Net(n.a, m.mine, n.toA + m.out, m.inbox) == NetAt(x, y, k, l + 1)
  {
    LeftStep(y, x, l, k);
    assert NetAt(y, x, l, k) == Swapped(NetAt(x, y, k, l));
  }

  // The state after i steps of some interleaving.
  ghost predicate OnCourse(x: Peer, y: Peer, n: Net, i: nat)
    requires x.Peer? && y.Peer?
  {
    exists k: nat, l: nat | k + l == i :: Apart(k, l) && n == NetAt(x, y, k, l)
  }

  lemma StepStaysOnCourse(x: Peer, y: Peer, n: Net, i: nat, n': Net)
    requires Ready(x) && Ready(y) && OnCourse(x, y, n, i) && Step(n, n')
    ensures OnCourse(x, y, n', i + 1)
  {
    var k: nat, l: nat :| k + l == i && Apart(k, l) && n == NetAt(x, y, k, l);
    LeftStep(x, y, k, l);
    RightStep(x, y, k, l);
    if Apart(k + 1, l) && n' == NetAt(x, y, k + 1, l) {
      assert (k + 1) + l == i + 1;
    } else {
      assert k + (l + 1) == i + 1 && Apart(k, l + 1) && n' == NetAt(x, y, k, l + 1);
    }
  }

  lemma StartsOnCourse(x: Peer, y: Peer)
    requires Ready(x) && Ready(y)
    ensures OnCourse(x, y, Net(x, y, [], []), 0)
  {
    assert Apart(0, 0) && Net(x, y, [], []) == NetAt(x, y, 0, 0);
  }

  // In every interleaving both sides stay on course: each frame arrives with the type and content its
  // receiver expects, and neither side ever fails.
  lemma {:induction false} SessionOnCourse(x: Peer, y: Peer, nets: seq<Net>, i: nat)
    requires Ready(x) && Ready(y) && IsSession(x, y, nets) && i < |nets|
    ensures OnCourse(x, y, nets[i], i)
  {
    if i == 0 {
      StartsOnCourse(x, y);
    } else {
      SessionOnCourse(x, y, nets, i - 1);
      assert Step(nets[i - 1], nets[i - 1 + 1]);
      StepStaysOnCourse(x, y, nets[i - 1], i - 1, nets[i]);
    }
  }

  // The state in which every complete run ends.
  ghost function Ended(x: Peer, y: Peer): Net
    requires x.Peer? && y.Peer?
  {
    Net(At(x, y, 8), At(y, x, 8), [], [])
  }

  // No interleaving fails, gets stuck or runs on: a state has no next step exactly when it is the final
  // one, and that is exactly after 16 steps.
  lemma NeverStuck(x: Peer, y: Peer, nets: seq<Net>)
    requires Ready(x) && Ready(y) && IsSession(x, y, nets)
    ensures var last := nets[|nets| - 1];
        && last.a.Peer? && last.b.Peer?
        && |nets| <= 17
        && ((exists n' :: Step(last, n')) <==> |nets| < 17)
        && (last == Ended(x, y) <==> |nets| == 17)
  {
    SessionOnCourse(x, y, nets, |nets| - 1);
    var k: nat, l: nat :| k + l == |nets| - 1 && Apart(k, l) && nets[|nets| - 1] == NetAt(x, y, k, l);
    NetCanStep(x, y, k, l);
  }

  lemma NetCanStep(x: Peer, y: Peer, k: nat, l: nat)
    requires Ready(x) && Ready(y) && Apart(k, l)
    ensures NetAt(x, y, k, l).a.Peer? && NetAt(x, y, k, l).b.Peer?
    ensures (exists n' :: Step(NetAt(x, y, k, l), n')) <==> k + l < 16
    ensures NetAt(x, y, k, l) == Ended(x, y) <==> k + l == 16
  {
    var n := NetAt(x, y, k, l);
    LeftStep(x, y, k, l);
    RightStep(x, y, k, l);
    if CanMove(k, l) {
      assert Step(n, NetAt(x, y, k + 1, l));
    } else if k + l < 16 {
      assert CanMove(l, k);
      assert Step(n, NetAt(x, y, k, l + 1));
    }
    assert n.a.pc == k && n.b.pc == l;
  }
}
