/**
The replica map of anti-entropy: for every partition its target replicas and the nodes that
serve it today, computed by two memoised walks.
*/
module ReplicaMap {
  import opened Codec
  import opened Placement
  import opened Partition
  import opened Ring
  import opened Scan
  import opened Topology

  /** Registered ring nodes that are not leaving. */
  function TargetNodes(t: View): set<NodeId> {
    set v | v in t.ring && v.node in t.registry && !t.registry[v.node].phase.Draining? :: v.node
  }

  /** Registered ring nodes that already hold their data. */
  function ServingNodes(t: View): set<NodeId> {
    set v | v in t.ring && v.node in t.registry && !t.registry[v.node].phase.Joining? :: v.node
  }

  /** Direct walk for one partition. */
  function Replicas(p: Partitioner, t: View, pid: nat, rf: nat): seq<NodeId>
    requires Proper(p)
  {
    if |t.ring| == 0 then [] else Owners(t.ring, StartOf(p, t.ring, pid), |t.ring|, TargetNodes(t), rf)
  }

  function Sources(p: Partitioner, t: View, pid: nat, rf: nat): seq<NodeId>
    requires Proper(p)
  {
    if |t.ring| == 0 then [] else Owners(t.ring, StartOf(p, t.ring, pid), |t.ring|, ServingNodes(t), rf)
  }

  datatype ReplicaView = ReplicaView(
    node: NodeId,
    replicas: seq<seq<NodeId>>,
    sources: seq<seq<NodeId>>,
    shared: map<NodeId, seq<nat>>,
    owns: bool)

  predicate CoReplicated(replicas: seq<seq<NodeId>>, node: NodeId, peer: NodeId, pid: nat) {
    pid < |replicas| && node != peer && node in replicas[pid] && peer in replicas[pid]
  }

  ghost predicate AscendingPids(pids: seq<nat>) {
    forall i, j :: 0 <= i < j < |pids| ==> pids[i] < pids[j]
  }

  /** Shared work lists are exact: the ascending co-replicated pids of every peer that has any. */
  ghost predicate SharedExactly(shared: map<NodeId, seq<nat>>, replicas: seq<seq<NodeId>>, node: NodeId) {
    && (forall peer, pid: nat :: CoReplicated(replicas, node, peer, pid) ==> peer in shared && pid in shared[peer])
    && (forall peer :: peer in shared ==> SharedList(shared[peer], replicas, node, peer))
  }

  ghost predicate SharedList(pids: seq<nat>, replicas: seq<seq<NodeId>>, node: NodeId, peer: NodeId) {
    pids != [] && AscendingPids(pids) && forall pid :: pid in pids ==> CoReplicated(replicas, node, peer, pid)
  }

  function PidsOf(shared: map<NodeId, seq<nat>>, peer: NodeId): seq<nat> {
    if peer in shared then shared[peer] else []
  }

  /** The work lists once `pid` is appended to those of some owners. */
  ghost predicate Appended(out: map<NodeId, seq<nat>>, shared: map<NodeId, seq<nat>>, node: NodeId, owners: seq<NodeId>, pid: nat) {
    && (forall peer :: peer in out <==> peer in shared || (peer in owners && peer != node))
    && (forall peer :: peer in out ==>
          out[peer] == PidsOf(shared, peer) + (if peer in owners && peer != node then [pid] else []))
  }

  lemma AppendOne(out: map<NodeId, seq<nat>>, shared: map<NodeId, seq<nat>>, node: NodeId, owners: seq<NodeId>, peer: NodeId, pid: nat)
    requires Appended(out, shared, node, owners, pid) && peer !in owners
    ensures Appended(if peer == node then out else out[peer := PidsOf(out, peer) + [pid]], shared, node, owners + [peer], pid)
  {
  }

  method AppendAll(shared: map<NodeId, seq<nat>>, node: NodeId, owners: seq<NodeId>, pid: nat) returns (out: map<NodeId, seq<nat>>)
    requires forall i, j :: 0 <= i < j < |owners| ==> owners[i] != owners[j]
    ensures Appended(out, shared, node, owners, pid)
  {
    out := shared;
    for i := 0 to |owners|
      invariant Appended(out, shared, node, owners[..i], pid)
    {
      assert owners[..i + 1] == owners[..i] + [owners[i]];
      var peer := owners[i];
      AppendOne(out, shared, node, owners[..i], peer, pid);
      if peer != node {
        out := out[peer := PidsOf(out, peer) + [pid]];
      }
    }
    assert owners[..|owners|] == owners;
  }

  lemma Recorded(replicas: seq<seq<NodeId>>, owners: seq<NodeId>, node: NodeId, peer: NodeId, pid: nat)
    ensures CoReplicated(replicas + [owners], node, peer, pid) <==>
            CoReplicated(replicas, node, peer, pid) || (pid == |replicas| && node != peer && node in owners && peer in owners)
  {
  }

  lemma ListGrows(pids: seq<nat>, replicas: seq<seq<NodeId>>, node: NodeId, peer: NodeId, owners: seq<NodeId>)
    requires pids == [] || SharedList(pids, replicas, node, peer)
    ensures pids != [] ==> SharedList(pids, replicas + [owners], node, peer)
    ensures node in owners && peer in owners && peer != node ==> SharedList(pids + [|replicas|], replicas + [owners], node, peer)
  {
    forall pid | pid in pids
      ensures pid < |replicas| && CoReplicated(replicas + [owners], node, peer, pid)
    {
      Recorded(replicas, owners, node, peer, pid);
    }
    Recorded(replicas, owners, node, peer, |replicas|);
    assert forall i :: 0 <= i < |pids| ==> pids[i] in pids;
  }

  lemma ShareGrows(shared: map<NodeId, seq<nat>>, out: map<NodeId, seq<nat>>, replicas: seq<seq<NodeId>>, node: NodeId, owners: seq<NodeId>)
    requires SharedExactly(shared, replicas, node) && (node in owners || out == shared)
    requires node in owners ==> Appended(out, shared, node, owners, |replicas|)
    ensures SharedExactly(out, replicas + [owners], node)
  {
    forall peer, pid: nat | CoReplicated(replicas + [owners], node, peer, pid)
      ensures peer in out && pid in out[peer]
    {
      Recorded(replicas, owners, node, peer, pid);
    }
    forall peer | peer in out
      ensures SharedList(out[peer], replicas + [owners], node, peer)
    {
      ListGrows(PidsOf(shared, peer), replicas, node, peer, owners);
    }
  }

  /** Both walks from one successor index, computed at most once per index. */
  type Memo = map<nat, (seq<NodeId>, seq<NodeId>)>

  function Walks(t: View, i: nat, rf: nat): (seq<NodeId>, seq<NodeId>)
    requires |t.ring| > 0
  {
    (Owners(t.ring, i, |t.ring|, TargetNodes(t), rf), Owners(t.ring, i, |t.ring|, ServingNodes(t), rf))
  }

  ghost predicate Remembers(memo: Memo, t: View, rf: nat)
    requires |t.ring| > 0
  {
    forall i :: i in memo ==> memo[i] == Walks(t, i, rf)
  }

  method Lookup(memo: Memo, t: View, i: nat, targets: set<NodeId>, serving: set<NodeId>, rf: nat)
    returns (out: Memo, walked: (seq<NodeId>, seq<NodeId>))
    requires |t.ring| > 0 && targets == TargetNodes(t) && serving == ServingNodes(t) && Remembers(memo, t, rf)
    ensures Remembers(out, t, rf) && walked == Walks(t, i, rf)
  {
    out := memo;
    if i !in memo {
      var owners := Walk(t.ring, i, targets, rf);
      var holders := Walk(t.ring, i, serving, rf);
      out := memo[i := (owners, holders)];
    }
    walked := out[i];
  }

  /** The first pids have the tuples of their direct walks. */
  ghost predicate Direct(replicas: seq<seq<NodeId>>, sources: seq<seq<NodeId>>, p: Partitioner, t: View, rf: nat)
    requires Proper(p)
  {
    && |replicas| == |sources|
    && (forall i :: 0 <= i < |replicas| ==> replicas[i] == Replicas(p, t, i, rf))
    && (forall i :: 0 <= i < |sources| ==> sources[i] == Sources(p, t, i, rf))
  }

  method BuildView(p: Partitioner, t: View, rf: nat, node: NodeId) returns (view: ReplicaView)
    requires Proper(p)
    ensures view.node == node && |view.replicas| == p.total
    ensures Direct(view.replicas, view.sources, p, t, rf)
    ensures SharedExactly(view.shared, view.replicas, node)
    ensures view.owns <==> Owning(view.replicas, node)
  {
    if |t.ring| == 0 {
      return ReplicaView(node, seq(p.total, _ => []), seq(p.total, _ => []), map[], false);
    }
    var targets, serving := TargetNodes(t), ServingNodes(t);
    var memo: Memo := map[];
    var replicas, sources, shared, owns := [], [], map[], false;
    for pid := 0 to p.total
      invariant |replicas| == pid && Direct(replicas, sources, p, t, rf)
      invariant Remembers(memo, t, rf)
      invariant SharedExactly(shared, replicas, node)
      invariant owns <==> Owning(replicas, node)
    {
      var i := SuccessorSlot(p, t.ring, pid);
      var walked;
      memo, walked := Lookup(memo, t, i, targets, serving, rf);
      if node in walked.0 {
        owns := true;
        var out := AppendAll(shared, node, walked.0, pid);
        ShareGrows(shared, out, replicas, node, walked.0);
        shared := out;
      } else {
        ShareGrows(shared, shared, replicas, node, walked.0);
      }
      DirectGain(replicas, sources, walked, p, t, rf);
      OwningGain(replicas, walked.0, node);
      replicas := replicas + [walked.0];
      sources := sources + [walked.1];
    }
    view := ReplicaView(node, replicas, sources, shared, owns);
  }

  /** Bisection for a partition's end, wrapped by a remainder. */
  function SuccessorSlot(p: Partitioner, ring: seq<VNode>, pid: nat): (i: nat)
    requires Proper(p) && |ring| > 0
    ensures i == StartOf(p, ring, pid)
  {
    ModBelow(Lower(ring, PartitionEnd(p, pid)), |ring|);
    Lower(ring, PartitionEnd(p, pid)) % |ring|
  }

  lemma DirectGain(replicas: seq<seq<NodeId>>, sources: seq<seq<NodeId>>, walked: (seq<NodeId>, seq<NodeId>),
                   p: Partitioner, t: View, rf: nat)
    requires Proper(p) && |t.ring| > 0 && Direct(replicas, sources, p, t, rf)
    requires walked == Walks(t, StartOf(p, t.ring, |replicas|), rf)
    ensures Direct(replicas + [walked.0], sources + [walked.1], p, t, rf)
  {
    var owners, holders := replicas + [walked.0], sources + [walked.1];
    forall i | 0 <= i < |owners|
      ensures owners[i] == Replicas(p, t, i, rf) && holders[i] == Sources(p, t, i, rf)
    {
      if i < |replicas| {
        assert owners[i] == replicas[i] && holders[i] == sources[i];
      }
    }
  }

  lemma OwningGain(replicas: seq<seq<NodeId>>, owners: seq<NodeId>, node: NodeId)
    ensures Owning(replicas + [owners], node) <==> Owning(replicas, node) || node in owners
  {
    var all := replicas + [owners];
    assert all[|replicas|] == owners;
    assert forall i :: 0 <= i < |replicas| ==> all[i] == replicas[i];
  }

  predicate Owning(replicas: seq<seq<NodeId>>, node: NodeId) {
    exists pid :: 0 <= pid < |replicas| && node in replicas[pid]
  }

  /** Replicas follow the request path's owners exactly where none of those owners is leaving. */
  lemma ReplicasArePreferred(p: Partitioner, t: View, pid: nat, rf: nat)
    requires Proper(p) && Coherent(t) && |t.ring| > 0
    ensures Replicas(p, t, pid, rf) == PreferredOwners(p, t, pid, rf) <==>
            forall n :: n in PreferredOwners(p, t, pid, rf) ==> !t.registry[n].phase.Draining?
    ensures forall n :: n in Replicas(p, t, pid, rf) ==> n in t.registry && !t.registry[n].phase.Draining?
  {
    var start, size := StartOf(p, t.ring, pid), |t.ring|;
    var preferred := PreferredOwners(p, t, pid, rf);
    forall i | 0 <= i < size
      ensures t.ring[i].node in Eligible(t)
    {
      OwnerKnown(t.ring, t.registry, t.ring[i]);
    }
    if forall n :: n in preferred ==> !t.registry[n].phase.Draining? {
      forall n | n in preferred
        ensures n in TargetNodes(t)
      {
        OwnersOnRing(t.ring, start, size, Eligible(t), rf, n);
      }
      OwnersDepend(t.ring, start, size, Eligible(t), TargetNodes(t), rf);
    }
  }

  /** Sources follow the request path's owners exactly where none of those owners is joining. */
  lemma SourcesArePreferred(p: Partitioner, t: View, pid: nat, rf: nat)
    requires Proper(p) && Coherent(t) && |t.ring| > 0
    ensures Sources(p, t, pid, rf) == PreferredOwners(p, t, pid, rf) <==>
            forall n :: n in PreferredOwners(p, t, pid, rf) ==> !t.registry[n].phase.Joining?
    ensures forall n :: n in Sources(p, t, pid, rf) ==> n in t.registry && !t.registry[n].phase.Joining?
  {
    var start, size := StartOf(p, t.ring, pid), |t.ring|;
    var preferred := PreferredOwners(p, t, pid, rf);
    forall i | 0 <= i < size
      ensures t.ring[i].node in Eligible(t)
    {
      OwnerKnown(t.ring, t.registry, t.ring[i]);
    }
    if forall n :: n in preferred ==> !t.registry[n].phase.Joining? {
      forall n | n in preferred
        ensures n in ServingNodes(t)
      {
        OwnersOnRing(t.ring, start, size, Eligible(t), rf, n);
      }
      OwnersDepend(t.ring, start, size, Eligible(t), ServingNodes(t), rf);
    }
  }

  // --------------------------------------------------------------- sources

  ghost function Below(s: set<NodeId>, order: NodeId -> real, n: NodeId): set<NodeId> {
    set k | k in s && order(k) < order(n)
  }

  function Entering(current: seq<NodeId>, target: seq<NodeId>): set<NodeId> {
    set n | n in target && n !in current
  }

  function Leaving(current: seq<NodeId>, target: seq<NodeId>): set<NodeId> {
    set n | n in current && n !in target
  }

  /** An entering node and a leaving one of the same rank in node order. */
  ghost predicate Paired(order: NodeId -> real, current: seq<NodeId>, target: seq<NodeId>, node: NodeId, source: NodeId) {
    && node in Entering(current, target) && source in Leaving(current, target)
    && |Below(Entering(current, target), order, node)| == |Below(Leaving(current, target), order, source)|
  }

  lemma RankInjective(s: set<NodeId>, order: NodeId -> real, a: NodeId, b: NodeId)
    requires Injective(order, s) && a in s && b in s && |Below(s, order, a)| == |Below(s, order, b)|
    ensures a == b
  {
    if order(a) < order(b) {
      BelowStrict(s, order, a, b);
    } else if order(b) < order(a) {
      BelowStrict(s, order, b, a);
    }
  }

  lemma BelowStrict(s: set<NodeId>, order: NodeId -> real, a: NodeId, b: NodeId)
    requires a in s && order(a) < order(b)
    ensures |Below(s, order, a)| < |Below(s, order, b)|
  {
    SubsetSize(Below(s, order, a) + {a}, Below(s, order, b));
  }

  /** Different joiners are paired with different leavers. */
  lemma PairingInjective(order: NodeId -> real, current: seq<NodeId>, target: seq<NodeId>, a: NodeId, b: NodeId, x: NodeId, y: NodeId)
    requires Injective(order, Entering(current, target)) && Injective(order, Leaving(current, target))
    requires Paired(order, current, target, a, x) && Paired(order, current, target, b, y)
    ensures a == b <==> x == y
  {
    if a == b {
      RankInjective(Leaving(current, target), order, x, y);
    } else if x == y {
      RankInjective(Entering(current, target), order, a, b);
    }
  }

  lemma BelowNext(s: set<NodeId>, page: seq<NodeId>, order: NodeId -> real, i: nat)
    requires Ascending(page, order) && (forall n :: n in page <==> n in s) && 0 < i < |page|
    ensures Below(s, order, page[i]) == Below(s, order, page[i - 1]) + {page[i - 1]}
  {
    assert page[i - 1] in page;
    forall n | n in s && order(n) < order(page[i])
      ensures n == page[i - 1] || order(n) < order(page[i - 1])
    {
      var j :| 0 <= j < |page| && page[j] == n;
      assert !(i < j);
    }
  }

  lemma {:induction false} IndexIsRank(s: set<NodeId>, page: seq<NodeId>, order: NodeId -> real, i: nat)
    requires Ascending(page, order) && (forall n :: n in page <==> n in s) && i < |page|
    ensures |Below(s, order, page[i])| == i
  {
    if i == 0 {
      assert Below(s, order, page[0]) == {} by {
        assert forall n :: n in s ==> exists j :: 0 <= j < |page| && page[j] == n;
      }
    } else {
      IndexIsRank(s, page, order, i - 1);
      BelowNext(s, page, order, i);
    }
  }

  /** The leaving node of an entering node's rank, if there are that many. */
  method Partner(order: NodeId -> real, current: seq<NodeId>, target: seq<NodeId>, node: NodeId) returns (source: Option<NodeId>)
    requires Injective(order, Entering(current, target)) && Injective(order, Leaving(current, target))
    ensures source.Some? <==>
      node in Entering(current, target) && |Below(Entering(current, target), order, node)| < |Leaving(current, target)|
    ensures source.Some? ==> Paired(order, current, target, node, source.value)
  {
    var entering := Sort(Entering(current, target), order);
    var leaving := Sort(Leaving(current, target), order);
    if node !in entering {
      return None;
    }
    var i := IndexOf(entering, node);
    IndexIsRank(Entering(current, target), entering, order, i);
    ListSize(Leaving(current, target), leaving);
    if i >= |leaving| {
      return None;
    }
    IndexIsRank(Leaving(current, target), leaving, order, i);
    return Some(leaving[i]);
  }

  /** With as many nodes leaving as entering, every entering one has a partner. */
  lemma EnoughLeave(order: NodeId -> real, current: seq<NodeId>, target: seq<NodeId>, node: NodeId)
    requires node in target && node !in current
    ensures node in Entering(current, target)
    ensures |set n | n in target && n !in current| <= |set n | n in current && n !in target| ==>
              |Below(Entering(current, target), order, node)| < |Leaving(current, target)|
  {
    var entering := Entering(current, target);
    assert entering == set n | n in target && n !in current;
    assert Leaving(current, target) == set n | n in current && n !in target;
    SubsetSize(Below(entering, order, node) + {node}, entering);
  }

  /** The single node a joiner copies a partition from; `spread` stands for the load-spreading hash. */
  method PrimarySource(order: NodeId -> real, current: seq<NodeId>, target: seq<NodeId>, node: NodeId, spread: nat)
    returns (source: Option<NodeId>)
    requires Injective(order, Entering(current, target)) && Injective(order, Leaving(current, target))
    ensures source.None? <==> forall n :: n in current ==> n == node
    ensures source.Some? ==> source.value in current && source.value != node
    ensures node in Entering(current, target) && |Below(Entering(current, target), order, node)| < |Leaving(current, target)| ==>
      source.Some? && Paired(order, current, target, node, source.value)
    ensures node in target && node !in current && |set n | n in target && n !in current| <= |set n | n in current && n !in target| ==>
      source.Some? && source.value !in target
  {
    if node in target && node !in current {
      EnoughLeave(order, current, target, node);
    }
    var candidates := Others(current, node);
    if |candidates| == 0 {
      return None;
    }
    assert candidates[0] in current && candidates[0] != node;
    source := Partner(order, current, target, node);
    if source.None? {
      var chosen := candidates[spread % |candidates|];
      assert chosen in candidates;
      source := Some(chosen);
    }
  }

  method Others(current: seq<NodeId>, node: NodeId) returns (candidates: seq<NodeId>)
    ensures forall n :: n in candidates <==> n in current && n != node
  {
    candidates := [];
    for i := 0 to |current|
      invariant forall n :: n in candidates <==> n in current[..i] && n != node
    {
      assert current[..i + 1] == current[..i] + [current[i]];
      if current[i] != node {
        candidates := candidates + [current[i]];
      }
    }
    assert current[..|current|] == current;
  }

  method IndexOf(page: seq<NodeId>, n: NodeId) returns (i: nat)
    requires n in page
    ensures i < |page| && page[i] == n
  {
    i := 0;
    while page[i] != n
      invariant i < |page| && n in page[i..]
      decreases |page| - i
    {
      i := i + 1;
    }
  }

  lemma {:induction false} ListSize(s: set<NodeId>, page: seq<NodeId>)
    requires (forall n :: n in page <==> n in s) && forall i, j :: 0 <= i < j < |page| ==> page[i] != page[j]
    ensures |page| == |s|
  {
    if |page| == 0 {
      assert s == {};
    } else {
      var init, last := page[..|page| - 1], page[|page| - 1];
      assert page == init + [last];
      ListSize(s - {last}, init);
    }
  }
}
