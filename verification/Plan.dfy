/**
The anti-entropy sweep plan: which node of each pair compares which partitions, and which
spans are checked for data to hand over.
*/
module Plan {
  import opened Codec
  import opened ReplicaMap
  import opened Scan

  /** One piece of a sweep: a session with a peer over some pids, or a handover check of a span. */
  datatype Unit = Session(peer: NodeId, pids: seq<nat>) | Handover(lo: nat, hi: nat)

  /** `even` stands for the parity of the pair's hash, taken with the smaller id first. */
  predicate Initiates(order: NodeId -> real, even: (NodeId, NodeId) -> bool, node: NodeId, peer: NodeId) {
    var low := if order(node) <= order(peer) then node else peer;
    var high := if order(node) <= order(peer) then peer else node;
    (node == low) == even(low, high)
  }

  /** Of two different nodes exactly one initiates. */
  lemma OneInitiates(order: NodeId -> real, even: (NodeId, NodeId) -> bool, a: NodeId, b: NodeId)
    requires a != b && order(a) != order(b)
    ensures Initiates(order, even, a, b) <==> !Initiates(order, even, b, a)
    ensures order(a) < order(b) ==> (Initiates(order, even, a, b) <==> even(a, b))
  {
  }

  /** Sessions with a peer that carry a pid. */
  function Carried(units: seq<Unit>, peer: NodeId, pid: nat): nat {
    if |units| == 0 then 0
    else
      var u := units[|units| - 1];
      Carried(units[..|units| - 1], peer, pid) + (if u.Session? && u.peer == peer && pid in u.pids then 1 else 0)
  }

  lemma {:induction false} CarriedJoin(a: seq<Unit>, b: seq<Unit>, peer: NodeId, pid: nat)
    ensures Carried(a + b, peer, pid) == Carried(a, peer, pid) + Carried(b, peer, pid)
  {
    if |b| == 0 {
      assert a + b == a;
    } else {
      assert (a + b)[..|a + b| - 1] == a + b[..|b| - 1];
      CarriedJoin(a, b[..|b| - 1], peer, pid);
    }
  }

  predicate Sized(units: seq<Unit>, most: nat) {
    forall i :: 0 <= i < |units| ==>
      match units[i]
      case Session(_, pids) => 1 <= |pids| <= most
      case Handover(lo, hi) => lo < hi <= lo + most
  }

  /** Every pid of the list is carried once, and nothing else is. */
  ghost predicate CarriesOnce(units: seq<Unit>, peer: NodeId, pids: seq<nat>) {
    forall p, pid :: Carried(units, p, pid) == if p == peer && pid in pids then 1 else 0
  }

  method Chunks(peer: NodeId, pids: seq<nat>, most: nat) returns (units: seq<Unit>)
    requires most >= 1 && AscendingPids(pids)
    ensures Sized(units, most) && CarriesOnce(units, peer, pids)
  {
    units := [];
    var i := 0;
    while i < |pids|
      invariant i <= |pids| && Sized(units, most) && CarriesOnce(units, peer, pids[..i])
    {
      var end := if i + most < |pids| then i + most else |pids|;
      ChunkGain(units, peer, pids, i, end);
      units := units + [Session(peer, pids[i..end])];
      i := end;
    }
    assert pids[..|pids|] == pids;
  }

  lemma ChunkGain(units: seq<Unit>, peer: NodeId, pids: seq<nat>, i: nat, end: nat)
    requires i < end <= |pids| && AscendingPids(pids) && CarriesOnce(units, peer, pids[..i])
    ensures CarriesOnce(units + [Session(peer, pids[i..end])], peer, pids[..end])
  {
    var unit := Session(peer, pids[i..end]);
    assert pids[..end] == pids[..i] + pids[i..end];
    forall p, pid
      ensures Carried(units + [unit], p, pid) == if p == peer && pid in pids[..end] then 1 else 0
    {
      assert (units + [unit])[..|units|] == units;
      assert pid in pids[..i] ==> pid !in pids[i..end];
    }
  }

  /** Handover spans follow each other from the first pid to the last. */
  ghost predicate Spans(units: seq<Unit>, hi: nat) {
    if |units| == 0 then hi == 0
    else
      var u := units[|units| - 1];
      u.Handover? && u.lo < u.hi == hi && Spans(units[..|units| - 1], u.lo)
  }

  method HandoverSpans(total: nat, most: nat) returns (units: seq<Unit>)
    requires most >= 1
    ensures Sized(units, most) && Spans(units, total)
  {
    units := [];
    var lo := 0;
    while lo < total
      invariant lo <= total && Sized(units, most) && Spans(units, lo)
    {
      var hi := if lo + most < total then lo + most else total;
      assert (units + [Handover(lo, hi)])[..|units|] == units;
      units := units + [Handover(lo, hi)];
      lo := hi;
    }
  }

  lemma {:induction false} SpansCarryNothing(units: seq<Unit>, hi: nat, peer: NodeId, pid: nat)
    requires Spans(units, hi)
    ensures Carried(units, peer, pid) == 0
  {
    if |units| > 0 {
      SpansCarryNothing(units[..|units| - 1], units[|units| - 1].lo, peer, pid);
    }
  }

  /** What a node's sessions carry: its shared pids with the peers it initiates for, once each. */
  ghost predicate Covers(units: seq<Unit>, peers: seq<NodeId>, view: ReplicaView, starts: NodeId -> bool) {
    forall p, pid :: Carried(units, p, pid) ==
      if p in peers && p in view.shared && starts(p) && pid in view.shared[p] then 1 else 0
  }

  /** What the sessions of one node's plan carry. */
  ghost predicate Plans(order: NodeId -> real, even: (NodeId, NodeId) -> bool, replicas: seq<seq<NodeId>>, node: NodeId, units: seq<Unit>) {
    forall p, pid :: Carried(units, p, pid) ==
      if Initiates(order, even, node, p) && CoReplicated(replicas, node, p, pid) then 1 else 0
  }

  /** Sessions first, from `cut` on the handover spans. */
  method SweepPlan(order: NodeId -> real, even: (NodeId, NodeId) -> bool, view: ReplicaView, total: nat, most: nat)
    returns (units: seq<Unit>, ghost cut: nat)
    requires most >= 1 && Injective(order, view.shared.Keys) && SharedExactly(view.shared, view.replicas, view.node)
    ensures Sized(units, most) && Plans(order, even, view.replicas, view.node, units)
    ensures cut <= |units| && Spans(units[cut..], total)
  {
    var peers := Sort(view.shared.Keys, order);
    var sessions := Sessions(view, peers, p => Initiates(order, even, view.node, p), most);
    var handovers := HandoverSpans(total, most);
    units, cut := sessions + handovers, |sessions|;
    assert units[cut..] == handovers;
    forall p, pid: nat
      ensures Carried(units, p, pid) ==
              if Initiates(order, even, view.node, p) && CoReplicated(view.replicas, view.node, p, pid) then 1 else 0
    {
      CarriedJoin(sessions, handovers, p, pid);
      SpansCarryNothing(handovers, total, p, pid);
      if p in view.shared {
        assert SharedList(view.shared[p], view.replicas, view.node, p);
      }
    }
  }

  method Sessions(view: ReplicaView, peers: seq<NodeId>, starts: NodeId -> bool, most: nat) returns (units: seq<Unit>)
    requires most >= 1 && forall i, j :: 0 <= i < j < |peers| ==> peers[i] != peers[j]
    requires forall p :: p in peers <==> p in view.shared
    requires forall p :: p in view.shared ==> AscendingPids(view.shared[p])
    ensures Sized(units, most) && Covers(units, peers, view, starts)
  {
    units := [];
    for i := 0 to |peers|
      invariant Sized(units, most) && Covers(units, peers[..i], view, starts)
    {
      var peer := peers[i];
      assert peers[..i + 1] == peers[..i] + [peer];
      var more: seq<Unit> := [];
      if starts(peer) {
        more := Chunks(peer, view.shared[peer], most);
      }
      CoversGain(units, more, peers[..i], peer, view, starts);
      units := units + more;
    }
    assert peers[..|peers|] == peers;
  }

  lemma CoversGain(units: seq<Unit>, more: seq<Unit>, peers: seq<NodeId>, peer: NodeId, view: ReplicaView, starts: NodeId -> bool)
    requires Covers(units, peers, view, starts) && peer !in peers && peer in view.shared
    requires if starts(peer) then CarriesOnce(more, peer, view.shared[peer]) else more == []
    ensures Covers(units + more, peers + [peer], view, starts)
  {
    forall p, pid
      ensures Carried(units + more, p, pid) ==
              if p in peers + [peer] && p in view.shared && starts(p) && pid in view.shared[p] then 1 else 0
    {
      CarriedJoin(units, more, p, pid);
    }
  }

  /** Two nodes with one replica map compare each pid they share in exactly one session of their two plans. */
  lemma EachPairOnce(order: NodeId -> real, even: (NodeId, NodeId) -> bool, replicas: seq<seq<NodeId>>,
                     a: NodeId, b: NodeId, planA: seq<Unit>, planB: seq<Unit>, pid: nat)
    requires a != b && order(a) != order(b)
    requires Plans(order, even, replicas, a, planA) && Plans(order, even, replicas, b, planB)
    ensures Carried(planA, b, pid) + Carried(planB, a, pid) == if CoReplicated(replicas, a, b, pid) then 1 else 0
  {
    OneInitiates(order, even, a, b);
  }

  /** Every pid lies in exactly one handover span. */
  lemma {:induction false} SpansCover(units: seq<Unit>, hi: nat, pid: nat)
    requires Spans(units, hi) && pid < hi
    ensures exists i :: 0 <= i < |units| && units[i].Handover? && units[i].lo <= pid < units[i].hi
    ensures forall i, j :: 0 <= i < j < |units| ==> units[i].Handover? && units[j].Handover? && units[i].hi <= units[j].lo
  {
    var n := |units| - 1;
    SpansAscend(units, hi);
    if pid < units[n].lo {
      SpansCover(units[..n], units[n].lo, pid);
      var i :| 0 <= i < n && units[..n][i].lo <= pid < units[..n][i].hi;
      assert units[i].lo <= pid < units[i].hi;
    } else {
      assert units[n].lo <= pid < units[n].hi;
    }
  }

  lemma {:induction false} SpansAscend(units: seq<Unit>, hi: nat)
    requires Spans(units, hi)
    ensures forall i :: 0 <= i < |units| ==> units[i].Handover? && units[i].hi <= hi
    ensures forall i, j :: 0 <= i < j < |units| ==> units[i].hi <= units[j].lo
  {
    if |units| > 0 {
      var n := |units| - 1;
      SpansAscend(units[..n], units[n].lo);
      assert forall i :: 0 <= i < n ==> units[..n][i] == units[i];
    }
  }
}
