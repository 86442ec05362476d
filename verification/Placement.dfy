/**
Replica placement: the clockwise walk that collects distinct owners, and the preference
list of the request path with its handoff substitutes.
*/
module Placement {
  import opened Codec
  import opened Ring
  import opened Partition
  import opened Topology

  // ------------------------------------------------------------------ walk

  /** Index arithmetic around a ring of `n`, for indices short of two laps. */
  function Wrap(i: nat, n: nat): (w: nat)
    requires n > 0
    ensures w < n
  {
    if i < n then i else if i - n < n then i - n else 0
  }

  /** On those indices it is the remainder. */
  lemma WrapIsRemainder(i: nat, n: nat)
    requires 0 < n && i < n + n
    ensures Wrap(i, n) == i % n
  {
    var q, r := i / n, i % n;
    assert i == n * q + r && 0 <= r < n;
    assert q >= 2 ==> n * q >= n * 2;
    assert q == 0 || q == 1;
  }

  /** The vnode `step` places clockwise of an index. */
  function Clockwise(ring: seq<VNode>, start: nat, step: nat): VNode
    requires |ring| > 0
  {
    ring[Wrap(start + step, |ring|)]
  }

  /** The walk has collected its fill; a factor of zero never stops it. */
  predicate Full(owners: seq<NodeId>, rf: nat) {
    rf > 0 && |owners| == rf
  }

  /** Distinct known nodes met in the first `steps` vnodes, at most `rf` of them. */
  function Owners(ring: seq<VNode>, start: nat, steps: nat, known: set<NodeId>, rf: nat): (owners: seq<NodeId>)
    requires |ring| > 0
    ensures rf > 0 ==> |owners| <= rf
    ensures forall n :: n in owners ==> n in known
    ensures forall i, j :: 0 <= i < j < |owners| ==> owners[i] != owners[j]
  {
    if steps == 0 then []
    else
      var owners := Owners(ring, start, steps - 1, known, rf);
      var candidate := Clockwise(ring, start, steps - 1).node;
      if !Full(owners, rf) && candidate in known && candidate !in owners then owners + [candidate] else owners
  }

  /** The step at which the walk collected its last owner. */
  function LastStep(ring: seq<VNode>, start: nat, steps: nat, known: set<NodeId>, rf: nat): nat
    requires |ring| > 0
  {
    if steps == 0 then 0
    else if Owners(ring, start, steps, known, rf) == Owners(ring, start, steps - 1, known, rf) then
      LastStep(ring, start, steps - 1, known, rf)
    else steps - 1
  }

  lemma {:induction false} OwnersGrow(ring: seq<VNode>, start: nat, steps: nat, more: nat, known: set<NodeId>, rf: nat)
    requires |ring| > 0 && steps <= more
    ensures Owners(ring, start, steps, known, rf) <= Owners(ring, start, more, known, rf)
    ensures Full(Owners(ring, start, steps, known, rf), rf) ==>
              Owners(ring, start, more, known, rf) == Owners(ring, start, steps, known, rf)
    ensures Full(Owners(ring, start, steps, known, rf), rf) ==>
              LastStep(ring, start, more, known, rf) == LastStep(ring, start, steps, known, rf)
  {
    if steps < more {
      OwnersGrow(ring, start, steps, more - 1, known, rf);
    }
  }

  method Walk(ring: seq<VNode>, start: nat, known: set<NodeId>, rf: nat) returns (owners: seq<NodeId>)
    ensures |ring| > 0 ==> owners == Owners(ring, start, |ring|, known, rf)
    ensures |ring| == 0 ==> owners == []
  {
    owners := [];
    if |ring| == 0 {
      return;
    }
    for step := 0 to |ring|
      invariant owners == Owners(ring, start, step, known, rf)
      invariant !Full(owners, rf)
    {
      var candidate := ring[Wrap(start + step, |ring|)].node;
      if candidate in known && candidate !in owners {
        owners := owners + [candidate];
        if |owners| == rf {
          OwnersGrow(ring, start, step + 1, |ring|, known, rf);
          break;
        }
      }
    }
  }

  /** Distinct known nodes among the first `steps` vnodes. */
  ghost function Seen(ring: seq<VNode>, start: nat, steps: nat, known: set<NodeId>): set<NodeId>
    requires |ring| > 0
  {
    set i: nat | i < steps && Clockwise(ring, start, i).node in known :: Clockwise(ring, start, i).node
  }

  lemma SeenStep(ring: seq<VNode>, start: nat, steps: nat, known: set<NodeId>)
    requires |ring| > 0 && steps > 0
    ensures var n := Clockwise(ring, start, steps - 1).node;
            Seen(ring, start, steps, known) ==
            Seen(ring, start, steps - 1, known) + (if n in known then {n} else {})
  {
  }

  lemma {:induction false} OwnersAreSeen(ring: seq<VNode>, start: nat, steps: nat, known: set<NodeId>, rf: nat)
    requires |ring| > 0 && rf > 0
    ensures var owners, seen := Owners(ring, start, steps, known, rf), Seen(ring, start, steps, known);
            && (forall n :: n in owners ==> n in seen)
            && (if |seen| <= rf then |owners| == |seen| && (forall n :: n in seen ==> n in owners) else |owners| == rf)
  {
    if steps > 0 {
      OwnersAreSeen(ring, start, steps - 1, known, rf);
      SeenStep(ring, start, steps, known);
    }
  }

  /** The first vnode of a node, counted from the start of the walk. */
  ghost predicate FirstMet(ring: seq<VNode>, start: nat, n: NodeId, i: nat)
    requires |ring| > 0
  {
    Clockwise(ring, start, i).node == n && forall j: nat :: j < i ==> Clockwise(ring, start, j).node != n
  }

  lemma NotSeenYet(ring: seq<VNode>, start: nat, known: set<NodeId>, rf: nat, n: NodeId, i: nat)
    requires |ring| > 0 && rf > 0 && FirstMet(ring, start, n, i)
    ensures n !in Owners(ring, start, i, known, rf)
    ensures Full(Owners(ring, start, i, known, rf), rf) <==> |Seen(ring, start, i, known)| >= rf
  {
    OwnersAreSeen(ring, start, i, known, rf);
  }

  /** A known node is an owner exactly when fewer than `rf` other known nodes come before it. */
  lemma ClosestOwn(ring: seq<VNode>, start: nat, known: set<NodeId>, rf: nat, n: NodeId, i: nat)
    requires |ring| > 0 && rf > 0 && n in known && i < |ring| && FirstMet(ring, start, n, i)
    ensures n in Owners(ring, start, |ring|, known, rf) <==> |Seen(ring, start, i, known)| < rf
  {
    NotSeenYet(ring, start, known, rf, n, i);
    if |Seen(ring, start, i, known)| < rf {
      var owners := Owners(ring, start, i + 1, known, rf);
      assert owners[|owners| - 1] == n;
      OwnersGrow(ring, start, i + 1, |ring|, known, rf);
    } else {
      OwnersGrow(ring, start, i, |ring|, known, rf);
    }
  }

  /** Forgetting nodes that are not owners leaves the owners alone. */
  lemma {:induction false} OwnersDepend(ring: seq<VNode>, start: nat, steps: nat, known: set<NodeId>, fewer: set<NodeId>, rf: nat)
    requires |ring| > 0 && steps <= |ring|
    requires forall i :: 0 <= i < |ring| && ring[i].node in fewer ==> ring[i].node in known
    requires forall n :: n in Owners(ring, start, steps, known, rf) ==> n in fewer
    ensures Owners(ring, start, steps, fewer, rf) == Owners(ring, start, steps, known, rf)
  {
    if steps > 0 {
      OwnersGrow(ring, start, steps - 1, steps, known, rf);
      OwnersDepend(ring, start, steps - 1, known, fewer, rf);
    }
  }

  // ------------------------------------------------------- preference list

  datatype Preference = Preference(node: NodeId, readable: bool, handoff: Option<NodeId>, writable: bool)

  /** Nodes whose member is known and not excluded. */
  function Eligible(t: View): set<NodeId> {
    set n | n in t.registry && Admits(t, n)
  }

  /** Where the walk for a partition starts. */
  function StartOf(p: Partitioner, ring: seq<VNode>, pid: nat): nat
    requires Proper(p) && |ring| > 0
  {
    SuccessorIndex(ring, PartitionEnd(p, pid))
  }

  /** Iteration from the successor vnode starts at its own index. */
  lemma IterFromSuccessor(ring: seq<VNode>, token: int)
    requires Sorted(ring) && |ring| > 0
    ensures Lower(ring, Successor(ring, token).token) == SuccessorIndex(ring, token)
  {
    LowerUnique(ring, Successor(ring, token).token, SuccessorIndex(ring, token));
  }

  ghost function PreferredOwners(p: Partitioner, t: View, pid: nat, rf: nat): seq<NodeId>
    requires Proper(p) && |t.ring| > 0
  {
    Owners(t.ring, StartOf(p, t.ring, pid), |t.ring|, Eligible(t), rf)
  }

  predicate NeedsHandoff(m: Member, alive: NodeId -> bool) {
    m.phase.Joining? || m.phase.Draining? || m.phase.Paused? || (m.phase.Ready? && !alive(m.node))
  }

  /** Live READY members outside the owners. */
  function Substitutes(t: View, alive: NodeId -> bool, used: seq<NodeId>): set<NodeId> {
    set n | n in t.registry && t.registry[n].phase.Ready? && alive(n) && n !in used
  }

  /** How many of the first owners ask for a substitute. */
  function Needy(t: View, owners: seq<NodeId>, alive: NodeId -> bool): nat {
    if |owners| == 0 then 0
    else
      var n := owners[|owners| - 1];
      Needy(t, owners[..|owners| - 1], alive) +
      (if n in t.registry && NeedsHandoff(t.registry[n], alive) then 1 else 0)
  }

  /** What an owner may do follows its phase; substitutes go to those in need, in order, while they last. */
  predicate Prefers(t: View, owners: seq<NodeId>, candidates: seq<NodeId>, alive: NodeId -> bool, i: nat, x: Preference)
    requires i < |owners|
  {
    && x.node == owners[i] && x.node in t.registry
    && var m := t.registry[x.node];
    && (x.readable <==> m.phase.Ready? || m.phase.Draining?)
    && (x.writable <==> m.phase.Ready?)
    && var k := Needy(t, owners[..i], alive);
    x.handoff == if NeedsHandoff(m, alive) && k < |candidates| then Some(candidates[k]) else None
  }

  lemma StepDecides(ring: seq<VNode>, start: nat, i: nat, known: set<NodeId>, rf: nat)
    requires |ring| > 0
    ensures var owners, n := Owners(ring, start, i, known, rf), Clockwise(ring, start, i).node;
            if !Full(owners, rf) && n in known && n !in owners then
              Owners(ring, start, i + 1, known, rf) == owners + [n] && LastStep(ring, start, i + 1, known, rf) == i
            else
              && Owners(ring, start, i + 1, known, rf) == owners
              && LastStep(ring, start, i + 1, known, rf) == LastStep(ring, start, i, known, rf)
  {
  }

  /** The node is registered and in no excluded phase. */
  predicate Admits(t: View, n: NodeId) {
    n in t.registry && !t.registry[n].phase.Idle? && !t.registry[n].phase.Failed?
  }

  /** Collect the owners of a partition and the vnode of the last one. */
  method CollectOwners(t: View, start: VNode, ghost known: set<NodeId>, rf: nat) returns (owners: seq<NodeId>, last: VNode)
    requires |t.ring| > 0 && forall n :: n in known <==> Admits(t, n)
    requires Clockwise(t.ring, Lower(t.ring, start.token), 0) == start
    ensures owners == Owners(t.ring, Lower(t.ring, start.token), |t.ring|, known, rf)
    ensures last == Clockwise(t.ring, Lower(t.ring, start.token), LastStep(t.ring, Lower(t.ring, start.token), |t.ring|, known, rf))
  {
    owners, last := [], start;
    var seen: set<NodeId> := {};
    var index := Lower(t.ring, start.token);
    ghost var at := 0;
    for i := 0 to |t.ring|
      invariant owners == Owners(t.ring, index, i, known, rf) && at == LastStep(t.ring, index, i, known, rf)
      invariant forall n :: n in seen <==> n in owners
      invariant last == Clockwise(t.ring, index, at)
      invariant !Full(owners, rf)
    {
      StepDecides(t.ring, index, i, known, rf);
      var vnode := Clockwise(t.ring, index, i);
      if !Admits(t, vnode.node) {
        continue;
      }
      if vnode.node !in seen {
        owners := owners + [vnode.node];
        seen := seen + {vnode.node};
        last, at := vnode, i;
      }
      if |owners| == rf {
        OwnersGrow(t.ring, index, i + 1, |t.ring|, known, rf);
        break;
      }
    }
  }

  /** Substitutes in the order the walk resumed at the last owner meets them. */
  ghost function Candidates(t: View, index: nat, rf: nat, alive: NodeId -> bool): seq<NodeId>
    requires |t.ring| > 0
  {
    var owners := Owners(t.ring, index, |t.ring|, Eligible(t), rf);
    var last := Clockwise(t.ring, index, LastStep(t.ring, index, |t.ring|, Eligible(t), rf));
    Owners(t.ring, Lower(t.ring, last.token), |t.ring|, Substitutes(t, alive, owners), 0)
  }

  ghost predicate PrefersAll(t: View, owners: seq<NodeId>, candidates: seq<NodeId>, alive: NodeId -> bool, preferences: seq<Preference>) {
    |preferences| == |owners| && forall i :: 0 <= i < |owners| ==> Prefers(t, owners, candidates, alive, i, preferences[i])
  }

  /** Substitutes are handed out one by one: each number below the total belongs to one owner in need. */
  lemma {:induction false} NeedyIndex(t: View, owners: seq<NodeId>, alive: NodeId -> bool, k: nat) returns (i: nat)
    requires k < Needy(t, owners, alive)
    ensures i < |owners| && owners[i] in t.registry && NeedsHandoff(t.registry[owners[i]], alive)
    ensures Needy(t, owners[..i], alive) == k
  {
    var init := owners[..|owners| - 1];
    if k < Needy(t, init, alive) {
      i := NeedyIndex(t, init, alive, k);
      assert init[..i] == owners[..i];
    } else {
      i := |owners| - 1;
    }
  }

  lemma {:induction false} NeedyBelow(t: View, owners: seq<NodeId>, alive: NodeId -> bool, i: nat)
    requires i < |owners| && owners[i] in t.registry && NeedsHandoff(t.registry[owners[i]], alive)
    ensures Needy(t, owners[..i], alive) < Needy(t, owners, alive)
  {
    var init := owners[..|owners| - 1];
    if i < |owners| - 1 {
      assert init[..i] == owners[..i];
      NeedyBelow(t, init, alive, i);
    }
  }

  lemma {:induction false} OwnersOnRing(ring: seq<VNode>, start: nat, steps: nat, known: set<NodeId>, rf: nat, n: NodeId)
    requires |ring| > 0 && n in Owners(ring, start, steps, known, rf)
    ensures exists v :: v in ring && v.node == n
  {
    if n in Owners(ring, start, steps - 1, known, rf) {
      OwnersOnRing(ring, start, steps - 1, known, rf, n);
    } else {
      assert Clockwise(ring, start, steps - 1) in ring;
    }
  }

  // ----------------------------------------------------------- substitutes

  /** A registered member that serves: READY, and not suspected. */
  predicate Healthy(t: View, alive: NodeId -> bool, n: NodeId) {
    n in t.registry && t.registry[n].phase.Ready? && alive(n)
  }

  /** The substitute of an owner that does not serve itself is a ring member that does, and no owner. */
  ghost predicate SubstituteFits(t: View, alive: NodeId -> bool, preferences: seq<Preference>, i: nat)
    requires i < |preferences| && preferences[i].handoff.Some?
  {
    var h := preferences[i].handoff.value;
    && Healthy(t, alive, h) && !Healthy(t, alive, preferences[i].node)
    && (exists v :: v in t.ring && v.node == h) && forall j :: 0 <= j < |preferences| ==> preferences[j].node != h
  }

  /** The node is an owner, or stands in for one of the first `i`. */
  predicate Taken(preferences: seq<Preference>, i: nat, n: NodeId) {
    exists j :: 0 <= j < |preferences| && (preferences[j].node == n || (j < i && preferences[j].handoff == Some(n)))
  }

  /** Substitutes fit, none is given twice, and an owner in need goes without only when none is left. */
  ghost predicate Substituted(t: View, alive: NodeId -> bool, preferences: seq<Preference>) {
    && (forall i :: 0 <= i < |preferences| && preferences[i].handoff.Some? ==> SubstituteFits(t, alive, preferences, i))
    && (forall i, j :: 0 <= i < j < |preferences| && preferences[i].handoff.Some? ==> preferences[i].handoff != preferences[j].handoff)
    && (forall i :: 0 <= i < |preferences| && preferences[i].handoff.None? && !Healthy(t, alive, preferences[i].node) ==>
          forall v :: v in t.ring && Healthy(t, alive, v.node) ==> Taken(preferences, i, v.node))
  }

  /** An owner asks for a substitute exactly when it does not serve itself. */
  lemma NeedsMeans(t: View, alive: NodeId -> bool, n: NodeId)
    requires Keyed(t.registry) && Admits(t, n)
    ensures NeedsHandoff(t.registry[n], alive) <==> !Healthy(t, alive, n)
  {
    assert t.registry[n].node == n;
  }

  /** An unbounded walk leaves no known ring node out. */
  lemma {:induction false} WalkCollects(ring: seq<VNode>, start: nat, steps: nat, known: set<NodeId>, x: nat)
    requires |ring| > 0 && x < steps && Clockwise(ring, start, x).node in known
    ensures Clockwise(ring, start, x).node in Owners(ring, start, steps, known, 0)
  {
    if x < steps - 1 {
      WalkCollects(ring, start, steps - 1, known, x);
    }
  }

  lemma RingCollected(ring: seq<VNode>, start: nat, known: set<NodeId>, v: VNode)
    requires start < |ring| && v in ring && v.node in known
    ensures v.node in Owners(ring, start, |ring|, known, 0)
  {
    var r :| 0 <= r < |ring| && ring[r] == v;
    var x := if r >= start then r - start else r + |ring| - start;
    assert Clockwise(ring, start, x) == v;
    WalkCollects(ring, start, |ring|, known, x);
  }

  /** Owners admitted, and candidates as the second walk finds them. */
  ghost predicate Drawn(t: View, alive: NodeId -> bool, owners: seq<NodeId>, candidates: seq<NodeId>) {
    && (forall i :: 0 <= i < |owners| ==> Admits(t, owners[i]))
    && (forall i, j :: 0 <= i < j < |candidates| ==> candidates[i] != candidates[j])
    && (forall n :: n in candidates <==> Healthy(t, alive, n) && n !in owners && exists v :: v in t.ring && v.node == n)
  }

  lemma CandidatesDrawn(t: View, index: nat, rf: nat, alive: NodeId -> bool)
    requires |t.ring| > 0
    ensures Drawn(t, alive, Owners(t.ring, index, |t.ring|, Eligible(t), rf), Candidates(t, index, rf, alive))
  {
    var owners := Owners(t.ring, index, |t.ring|, Eligible(t), rf);
    var last := Clockwise(t.ring, index, LastStep(t.ring, index, |t.ring|, Eligible(t), rf));
    var outside, again := Substitutes(t, alive, owners), Lower(t.ring, last.token);
    var candidates := Candidates(t, index, rf, alive);
    assert again < |t.ring|;
    forall i | 0 <= i < |owners|
      ensures Admits(t, owners[i])
    {
      assert owners[i] in owners;
    }
    forall n | n in candidates
      ensures exists v :: v in t.ring && v.node == n
    {
      OwnersOnRing(t.ring, again, |t.ring|, outside, 0, n);
    }
    forall v | v in t.ring && v.node in outside
      ensures v.node in candidates
    {
      RingCollected(t.ring, again, outside, v);
    }
  }

  lemma HandoffFits(t: View, alive: NodeId -> bool, owners: seq<NodeId>, candidates: seq<NodeId>, preferences: seq<Preference>, i: nat)
    requires Keyed(t.registry) && Drawn(t, alive, owners, candidates) && PrefersAll(t, owners, candidates, alive, preferences)
    requires i < |preferences| && preferences[i].handoff.Some?
    ensures SubstituteFits(t, alive, preferences, i)
  {
    assert Prefers(t, owners, candidates, alive, i, preferences[i]) && Admits(t, owners[i]);
    NeedsMeans(t, alive, owners[i]);
    var h := candidates[Needy(t, owners[..i], alive)];
    assert h in candidates;
    forall j | 0 <= j < |preferences|
      ensures preferences[j].node != h
    {
      assert Prefers(t, owners, candidates, alive, j, preferences[j]);
      assert owners[j] in owners;
    }
  }

  lemma HandoffsDiffer(t: View, alive: NodeId -> bool, owners: seq<NodeId>, candidates: seq<NodeId>, preferences: seq<Preference>, i: nat, j: nat)
    requires Drawn(t, alive, owners, candidates) && PrefersAll(t, owners, candidates, alive, preferences)
    requires i < j < |preferences| && preferences[i].handoff.Some?
    ensures preferences[i].handoff != preferences[j].handoff
  {
    assert Prefers(t, owners, candidates, alive, i, preferences[i]) && Prefers(t, owners, candidates, alive, j, preferences[j]);
    NeedyBelow(t, owners[..j], alive, i);
    assert owners[..j][..i] == owners[..i];
  }

  lemma NoneLeft(t: View, alive: NodeId -> bool, owners: seq<NodeId>, candidates: seq<NodeId>, preferences: seq<Preference>, i: nat, v: VNode)
    requires Keyed(t.registry) && Drawn(t, alive, owners, candidates) && PrefersAll(t, owners, candidates, alive, preferences)
    requires i < |preferences| && preferences[i].handoff.None? && !Healthy(t, alive, preferences[i].node)
    requires v in t.ring && Healthy(t, alive, v.node)
    ensures Taken(preferences, i, v.node)
  {
    var n := v.node;
    assert Prefers(t, owners, candidates, alive, i, preferences[i]) && Admits(t, owners[i]);
    NeedsMeans(t, alive, owners[i]);
    if n in owners {
      var j :| 0 <= j < |owners| && owners[j] == n;
      assert Prefers(t, owners, candidates, alive, j, preferences[j]);
      assert preferences[j].node == n;
    } else {
      assert n in candidates;
      var x :| 0 <= x < |candidates| && candidates[x] == n;
      var j := NeedyIndex(t, owners[..i], alive, x);
      assert owners[..i][..j] == owners[..j];
      assert Prefers(t, owners, candidates, alive, j, preferences[j]);
      assert preferences[j].handoff == Some(n);
    }
  }

  lemma PreferencesSubstituted(t: View, alive: NodeId -> bool, owners: seq<NodeId>, candidates: seq<NodeId>, preferences: seq<Preference>)
    requires Keyed(t.registry) && Drawn(t, alive, owners, candidates) && PrefersAll(t, owners, candidates, alive, preferences)
    ensures Substituted(t, alive, preferences)
  {
    forall i | 0 <= i < |preferences| && preferences[i].handoff.Some?
      ensures SubstituteFits(t, alive, preferences, i)
    {
      HandoffFits(t, alive, owners, candidates, preferences, i);
    }
    forall i, j | 0 <= i < j < |preferences| && preferences[i].handoff.Some?
      ensures preferences[i].handoff != preferences[j].handoff
    {
      HandoffsDiffer(t, alive, owners, candidates, preferences, i, j);
    }
    forall i, v | 0 <= i < |preferences| && preferences[i].handoff.None? && !Healthy(t, alive, preferences[i].node)
               && v in t.ring && Healthy(t, alive, v.node)
      ensures Taken(preferences, i, v.node)
    {
      NoneLeft(t, alive, owners, candidates, preferences, i, v);
    }
  }

  /** A member in the ring is an owner exactly when fewer than `rf` others that are not idle or failed come before it. */
  lemma PreferredAreClosest(p: Partitioner, t: View, pid: nat, rf: nat, n: NodeId, i: nat)
    requires Proper(p) && rf > 0 && i < |t.ring| && FirstMet(t.ring, StartOf(p, t.ring, pid), n, i)
    ensures var others := set m | m in t.registry &&
                            var phase := t.registry[m].phase; phase == Joining || phase == Ready || phase == Paused || phase == Draining;
            n in PreferredOwners(p, t, pid, rf) <==> n in others && |Seen(t.ring, StartOf(p, t.ring, pid), i, others)| < rf
  {
    var others := set m | m in t.registry &&
                    var phase := t.registry[m].phase; phase == Joining || phase == Ready || phase == Paused || phase == Draining;
    assert Eligible(t) == others;
    if n in others {
      ClosestOwn(t.ring, StartOf(p, t.ring, pid), others, rf, n, i);
    }
  }

  method PreferFrom(t: View, start: VNode, rf: nat, alive: NodeId -> bool) returns (preferences: seq<Preference>)
    requires |t.ring| > 0 && Keyed(t.registry) && Clockwise(t.ring, Lower(t.ring, start.token), 0) == start
    ensures var index := Lower(t.ring, start.token);
            PrefersAll(t, Owners(t.ring, index, |t.ring|, Eligible(t), rf), Candidates(t, index, rf, alive), alive, preferences)
  {
    var owners, last := CollectOwners(t, start, Eligible(t), rf);
    assert forall n :: n in owners ==> n in t.registry;
    var candidates := Walk(t.ring, Lower(t.ring, last.token), Substitutes(t, alive, owners), 0);
    preferences := Assign(t, owners, candidates, alive);
  }

  /** The preference list of the partition whose end boundary is `end`. */
  method PreferAt(t: View, end: nat, rf: nat, alive: NodeId -> bool) returns (preferences: seq<Preference>)
    requires Sorted(t.ring) && Keyed(t.registry) && |t.ring| > 0
    ensures var index := SuccessorIndex(t.ring, end);
            PrefersAll(t, Owners(t.ring, index, |t.ring|, Eligible(t), rf), Candidates(t, index, rf, alive), alive, preferences)
  {
    var start := Successor(t.ring, end);
    IterFromSuccessor(t.ring, end);
    assert Clockwise(t.ring, SuccessorIndex(t.ring, end), 0) == start;
    preferences := PreferFrom(t, start, rf, alive);
  }

  /** The request path's preference list; an empty ring has none. */
  method PreferenceList(p: Partitioner, t: View, pid: nat, rf: nat, alive: NodeId -> bool) returns (result: Option<seq<Preference>>)
    requires Proper(p) && Sorted(t.ring) && Keyed(t.registry)
    ensures result.None? <==> t.ring == []
    ensures result.Some? ==>
      PrefersAll(t, PreferredOwners(p, t, pid, rf), Candidates(t, StartOf(p, t.ring, pid), rf, alive), alive, result.value)
    ensures result.Some? ==> Substituted(t, alive, result.value)
  {
    if |t.ring| == 0 {
      return None;
    }
    var preferences := PreferAt(t, PartitionEnd(p, pid), rf, alive);
    CandidatesDrawn(t, StartOf(p, t.ring, pid), rf, alive);
    PreferencesSubstituted(t, alive, PreferredOwners(p, t, pid, rf), Candidates(t, StartOf(p, t.ring, pid), rf, alive), preferences);
    return Some(preferences);
  }

  method Assign(t: View, owners: seq<NodeId>, candidates: seq<NodeId>, alive: NodeId -> bool) returns (preferences: seq<Preference>)
    requires forall n :: n in owners ==> n in t.registry
    ensures PrefersAll(t, owners, candidates, alive, preferences)
  {
    preferences := [];
    var next := 0;
    for i := 0 to |owners|
      invariant |preferences| == i
      invariant var k := Needy(t, owners[..i], alive); next == if k < |candidates| then k else |candidates|
      invariant forall x :: 0 <= x < i ==> Prefers(t, owners, candidates, alive, x, preferences[x])
    {
      assert owners[..i + 1][..i] == owners[..i];
      var member := t.registry[owners[i]];
      var handoff: Option<NodeId> := None;
      if NeedsHandoff(member, alive) && next < |candidates| {
        handoff := Some(candidates[next]);
        next := next + 1;
      }
      preferences := preferences + [Preference(owners[i], member.phase.Ready? || member.phase.Draining?, handoff, member.phase.Ready?)];
    }
  }
}
