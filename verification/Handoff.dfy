/**
While nodes drain, writes go to the nodes that anti-entropy fills: the write path's
substitutes complete the target replicas exactly.
*/
module Handoff {
  import opened Codec
  import opened Partition
  import opened Placement
  import opened ReplicaMap
  import opened Ring
  import opened Scan
  import opened Topology

  /** Where a write for one owner goes. */
  function WriteTarget(x: Preference): Option<NodeId> {
    if x.handoff.Some? then x.handoff else if x.writable then Some(x.node) else None
  }

  /**
  Every write goes to a member that serves, except to a suspected READY owner for which no substitute
  was left; and an owner has no write target only if it is not READY and none was left for it.
  */
  lemma WritesGoWhereServed(p: Partitioner, t: View, pid: nat, rf: nat, alive: NodeId -> bool, preferences: seq<Preference>, i: nat)
    requires Proper(p) && |t.ring| > 0 && Keyed(t.registry) && i < |preferences|
    requires PrefersAll(t, PreferredOwners(p, t, pid, rf), Candidates(t, StartOf(p, t.ring, pid), rf, alive), alive, preferences)
    ensures var x := preferences[i];
            var left := exists v :: v in t.ring && Healthy(t, alive, v.node) && !Taken(preferences, i, v.node);
            match WriteTarget(x)
            case Some(n) => Healthy(t, alive, n) || (!left && n == x.node && t.registry[n].phase.Ready?)
            case None => !left && x.node in t.registry && !t.registry[x.node].phase.Ready?
    ensures Healthy(t, alive, preferences[i].node) ==> WriteTarget(preferences[i]) == Some(preferences[i].node)
  {
    CandidatesDrawn(t, StartOf(p, t.ring, pid), rf, alive);
    PreferencesSubstituted(t, alive, PreferredOwners(p, t, pid, rf), Candidates(t, StartOf(p, t.ring, pid), rf, alive), preferences);
    assert Prefers(t, PreferredOwners(p, t, pid, rf), Candidates(t, StartOf(p, t.ring, pid), rf, alive), alive, i, preferences[i]);
    if preferences[i].handoff.Some? {
      assert SubstituteFits(t, alive, preferences, i);
    }
  }

  predicate Written(preferences: seq<Preference>, n: NodeId) {
    exists i :: 0 <= i < |preferences| && WriteTarget(preferences[i]) == Some(n)
  }

  /** Every ring member is READY and alive, or draining. */
  ghost predicate OnlyDraining(t: View, alive: NodeId -> bool) {
    forall v :: v in t.ring ==>
      && v.node in t.registry
      && (t.registry[v.node].phase.Draining? || (t.registry[v.node].phase.Ready? && alive(v.node)))
  }

  // ------------------------------------------------------------ rotations

  /** The start of a walk follows a strictly smaller token, or is the first vnode. */
  ghost predicate Boundary(ring: seq<VNode>, start: nat) {
    start < |ring| && (start > 0 ==> ring[start - 1].token < ring[start].token)
  }

  lemma SuccessorBoundary(ring: seq<VNode>, token: int)
    requires Sorted(ring) && |ring| > 0
    ensures Boundary(ring, SuccessorIndex(ring, token))
  {
  }

  /** A walk restarted at the token of step `last` begins no later than that step. */
  lemma RestartsEarlier(ring: seq<VNode>, start: nat, last: nat) returns (d: nat)
    requires Sorted(ring) && Boundary(ring, start) && last < |ring|
    ensures d <= last && Lower(ring, Clockwise(ring, start, last).token) == Wrap(start + d, |ring|)
  {
    var pos := Wrap(start + last, |ring|);
    var lower := Lower(ring, ring[pos].token);
    assert lower <= pos by {
      assert forall j :: 0 <= j < lower ==> ring[j].token < ring[pos].token;
    }
    if start <= pos {
      assert start <= lower by {
        assert start > 0 ==> ring[start - 1].token < ring[start].token <= ring[pos].token;
        assert forall j :: 0 <= j < start ==> ring[j].token <= ring[start - 1].token;
      }
      d := lower - start;
    } else {
      d := lower + |ring| - start;
    }
  }

  lemma Rotated(ring: seq<VNode>, start: nat, d: nat, step: nat)
    requires start < |ring| && d + step < |ring|
    ensures Clockwise(ring, Wrap(start + d, |ring|), step) == Clockwise(ring, start, d + step)
  {
  }

  // ----------------------------------------------------------- candidates

  /** Every vnode the walk passed before collecting its last owner belongs to an owner. */
  lemma EarlyOwned(ring: seq<VNode>, start: nat, steps: nat, known: set<NodeId>, rf: nat, x: nat)
    requires |ring| > 0 && x <= LastStep(ring, start, steps, known, rf) && x < steps && Clockwise(ring, start, x).node in known
    ensures Clockwise(ring, start, x).node in Owners(ring, start, steps, known, rf)
  {
    OwnersGrow(ring, start, x, steps, known, rf);
    OwnersGrow(ring, start, x + 1, steps, known, rf);
    StepDecides(ring, start, x, known, rf);
    LastStepBound(ring, start, x, known, rf);
  }

  lemma {:induction false} LastStepBound(ring: seq<VNode>, start: nat, steps: nat, known: set<NodeId>, rf: nat)
    requires |ring| > 0
    ensures LastStep(ring, start, steps, known, rf) <= if steps == 0 then 0 else steps - 1
  {
    if steps > 0 {
      LastStepBound(ring, start, steps - 1, known, rf);
    }
  }

  /** In an unbounded walk a node stands at the number of known nodes met before it. */
  lemma UnboundedRank(ring: seq<VNode>, start: nat, known: set<NodeId>, n: NodeId, i: nat)
    requires |ring| > 0 && n in known && i < |ring| && FirstMet(ring, start, n, i)
    ensures var all, k := Owners(ring, start, |ring|, known, 0), |Seen(ring, start, i, known)|;
            k < |all| && all[k] == n
  {
    UnboundedSeen(ring, start, i, known);
    StepDecides(ring, start, i, known, 0);
    OwnersGrow(ring, start, i + 1, |ring|, known, 0);
  }

  lemma {:induction false} UnboundedSeen(ring: seq<VNode>, start: nat, steps: nat, known: set<NodeId>)
    requires |ring| > 0
    ensures var owners, seen := Owners(ring, start, steps, known, 0), Seen(ring, start, steps, known);
            |owners| == |seen| && forall n :: n in owners <==> n in seen
  {
    if steps > 0 {
      UnboundedSeen(ring, start, steps - 1, known);
      SeenStep(ring, start, steps, known);
    }
  }

  lemma {:induction false} Met(ring: seq<VNode>, start: nat, n: NodeId, steps: nat, x: nat) returns (i: nat)
    requires |ring| > 0 && x < steps && Clockwise(ring, start, x).node == n
    ensures i <= x && FirstMet(ring, start, n, i)
    decreases x
  {
    if y: nat :| y < x && Clockwise(ring, start, y).node == n {
      i := Met(ring, start, n, steps, y);
    } else {
      i := x;
    }
  }

  lemma RotatedFirstMet(ring: seq<VNode>, start: nat, d: nat, n: NodeId, i: nat)
    requires start < |ring| && d <= i < |ring| && FirstMet(ring, start, n, i)
    ensures FirstMet(ring, Wrap(start + d, |ring|), n, i - d)
  {
    var again := Wrap(start + d, |ring|);
    Rotated(ring, start, d, i - d);
    forall x: nat | x < i - d
      ensures Clockwise(ring, again, x).node != n
    {
      Rotated(ring, start, d, x);
    }
  }

  lemma SameSeen(ring: seq<VNode>, start: nat, d: nat, i: nat, outside: set<NodeId>)
    requires start < |ring| && d <= i < |ring|
    requires forall x: nat :: x < d ==> Clockwise(ring, start, x).node !in outside
    ensures Seen(ring, Wrap(start + d, |ring|), i - d, outside) == Seen(ring, start, i, outside)
  {
    var again := Wrap(start + d, |ring|);
    forall n | n in Seen(ring, start, i, outside)
      ensures n in Seen(ring, again, i - d, outside)
    {
      var x: nat :| x < i && Clockwise(ring, start, x).node in outside && Clockwise(ring, start, x).node == n;
      Rotated(ring, start, d, x - d);
      assert Clockwise(ring, again, x - d).node == n;
    }
    forall n | n in Seen(ring, again, i - d, outside)
      ensures n in Seen(ring, start, i, outside)
    {
      var x: nat :| x < i - d && Clockwise(ring, again, x).node in outside && Clockwise(ring, again, x).node == n;
      Rotated(ring, start, d, x);
      assert Clockwise(ring, start, d + x).node == n;
    }
  }

  /** The walk resumed at the last owner meets the outsiders in the order the first walk would. */
  lemma OutsidersInOrder(ring: seq<VNode>, start: nat, last: nat, outside: set<NodeId>, n: NodeId, i: nat)
    requires Sorted(ring) && Boundary(ring, start) && last < i < |ring| && n in outside && FirstMet(ring, start, n, i)
    requires forall x: nat :: x <= last ==> Clockwise(ring, start, x).node !in outside
    ensures var all := Owners(ring, Lower(ring, Clockwise(ring, start, last).token), |ring|, outside, 0);
            var k := |Seen(ring, start, i, outside)|;
            k < |all| && all[k] == n
  {
    var d := RestartsEarlier(ring, start, last);
    OutsidersAfter(ring, start, d, outside, n, i);
  }

  /** The same for a walk resumed `d` steps on, before any outsider was met. */
  lemma OutsidersAfter(ring: seq<VNode>, start: nat, d: nat, outside: set<NodeId>, n: NodeId, i: nat)
    requires start < |ring| && d <= i < |ring| && n in outside && FirstMet(ring, start, n, i)
    requires forall x: nat :: x < d ==> Clockwise(ring, start, x).node !in outside
    ensures var all := Owners(ring, Wrap(start + d, |ring|), |ring|, outside, 0);
            var k := |Seen(ring, start, i, outside)|;
            k < |all| && all[k] == n
  {
    RotatedFirstMet(ring, start, d, n, i);
    SameSeen(ring, start, d, i, outside);
    UnboundedRank(ring, Wrap(start + d, |ring|), outside, n, i - d);
  }

  // --------------------------------------------------------------- counts

  ghost function DrainingAmong(t: View, owners: seq<NodeId>): set<NodeId> {
    set n | n in owners && n in t.registry && t.registry[n].phase.Draining?
  }

  ghost function Staying(t: View, owners: seq<NodeId>): set<NodeId> {
    set n | n in owners && n !in DrainingAmong(t, owners)
  }

  /** Among owners only the draining ones ask for a substitute. */
  lemma {:induction false} NeedyAreDraining(t: View, owners: seq<NodeId>, alive: NodeId -> bool)
    requires Keyed(t.registry)
    requires forall n :: n in owners ==> n in t.registry
    requires forall n :: n in owners ==> t.registry[n].phase.Draining? || (t.registry[n].phase.Ready? && alive(n))
    requires forall i, j :: 0 <= i < j < |owners| ==> owners[i] != owners[j]
    ensures Needy(t, owners, alive) == |DrainingAmong(t, owners)|
  {
    if |owners| > 0 {
      var init, last := owners[..|owners| - 1], owners[|owners| - 1];
      assert owners == init + [last];
      NeedyAreDraining(t, init, alive);
      assert last !in init;
      DrainingGain(t, init, last);
    }
  }

  lemma DrainingGain(t: View, owners: seq<NodeId>, n: NodeId)
    requires n !in owners && n in t.registry
    ensures |DrainingAmong(t, owners + [n])| == |DrainingAmong(t, owners)| + if t.registry[n].phase.Draining? then 1 else 0
  {
    var all := DrainingAmong(t, owners + [n]);
    if t.registry[n].phase.Draining? {
      assert all == DrainingAmong(t, owners) + {n};
    } else {
      assert all == DrainingAmong(t, owners);
    }
  }

  // ----------------------------------------------------------------- main

  datatype Walked = Walked(start: nat, owners: seq<NodeId>, outside: set<NodeId>, candidates: seq<NodeId>)

  /** Owners, outsiders and candidates of one walk over a ring with draining members. */
  ghost predicate Draws(t: View, rf: nat, alive: NodeId -> bool, w: Walked) {
    && Coherent(t) && |t.ring| > 0 && rf > 0 && OnlyDraining(t, alive) && Boundary(t.ring, w.start)
    && w.owners == Owners(t.ring, w.start, |t.ring|, Eligible(t), rf)
    && w.outside == Substitutes(t, alive, w.owners)
    && w.candidates == Candidates(t, w.start, rf, alive)
  }

  lemma OnRing(t: View, alive: NodeId -> bool, start: nat, x: nat)
    requires |t.ring| > 0 && OnlyDraining(t, alive)
    ensures Clockwise(t.ring, start, x) in t.ring && Clockwise(t.ring, start, x).node in Eligible(t)
  {
    var v := Clockwise(t.ring, start, x);
    assert v in t.ring;
  }

  lemma OwnersDrainOrServe(t: View, rf: nat, alive: NodeId -> bool, w: Walked, n: NodeId)
    requires Draws(t, rf, alive, w) && n in w.owners
    ensures n in t.registry && (t.registry[n].phase.Draining? || (t.registry[n].phase.Ready? && alive(n)))
    ensures exists v :: v in t.ring && v.node == n
  {
    OwnersOnRing(t.ring, w.start, |t.ring|, Eligible(t), rf, n);
  }

  /** What was met before an outsider, seen as targets, is the owners that stay and the outsiders before it. */
  lemma MetBefore(t: View, rf: nat, alive: NodeId -> bool, w: Walked, n: NodeId, i: nat)
    requires Draws(t, rf, alive, w) && n in w.outside && i < |t.ring| && FirstMet(t.ring, w.start, n, i)
    ensures LastStep(t.ring, w.start, |t.ring|, Eligible(t), rf) < i
    ensures forall k :: k in w.owners ==> k in Seen(t.ring, w.start, i, Eligible(t))
    ensures |w.owners| == rf
  {
    var known := Eligible(t);
    OnRing(t, alive, w.start, i);
    NotSeenYet(t.ring, w.start, known, rf, n, i);
    ClosestOwn(t.ring, w.start, known, rf, n, i);
    OwnersAreSeen(t.ring, w.start, i, known, rf);
    OwnersGrow(t.ring, w.start, i, |t.ring|, known, rf);
    LastStepBound(t.ring, w.start, i, known, rf);
  }

  lemma SplitSeen(t: View, rf: nat, alive: NodeId -> bool, w: Walked, n: NodeId, i: nat)
    requires Draws(t, rf, alive, w) && n in w.outside && i < |t.ring| && FirstMet(t.ring, w.start, n, i)
    ensures Seen(t.ring, w.start, i, TargetNodes(t)) ==
            Staying(t, w.owners) + Seen(t.ring, w.start, i, w.outside)
  {
    MetBefore(t, rf, alive, w, n, i);
    var stay := Staying(t, w.owners);
    forall k | k in Seen(t.ring, w.start, i, TargetNodes(t))
      ensures k in stay || k in Seen(t.ring, w.start, i, w.outside)
    {
      var x: nat :| x < i && Clockwise(t.ring, w.start, x).node in TargetNodes(t) && Clockwise(t.ring, w.start, x).node == k;
      OnRing(t, alive, w.start, x);
    }
    forall k | k in stay || k in Seen(t.ring, w.start, i, w.outside)
      ensures k in Seen(t.ring, w.start, i, TargetNodes(t))
    {
      var x: nat :| x < i && Clockwise(t.ring, w.start, x).node == k;
      OnRing(t, alive, w.start, x);
    }
  }

  lemma Sizes(a: set<NodeId>, b: set<NodeId>, owners: seq<NodeId>, draining: set<NodeId>)
    requires a == (set k | k in owners && k !in draining) && (forall k :: k in draining ==> k in owners)
    requires a !! b && forall i, j :: 0 <= i < j < |owners| ==> owners[i] != owners[j]
    ensures |a + b| == |owners| - |draining| + |b|
  {
    var all := set k | k in owners;
    ListSize(all, owners);
    assert all == a + draining && a !! draining;
  }

  /** An outsider is a target replica exactly when it is among the substitutes handed out. */
  lemma OutsiderReplicates(t: View, rf: nat, alive: NodeId -> bool, w: Walked, n: NodeId)
    requires Draws(t, rf, alive, w) && n in w.outside && exists v :: v in t.ring && v.node == n
    ensures var k := Needy(t, w.owners, alive);
            n in Owners(t.ring, w.start, |t.ring|, TargetNodes(t), rf) <==>
            exists x :: 0 <= x < |w.candidates| && x < k && w.candidates[x] == n
  {
    var size := |t.ring|;
    var y := StepTo(t.ring, w.start, n);
    var i := Met(t.ring, w.start, n, size, y);
    var last := LastStep(t.ring, w.start, size, Eligible(t), rf);
    MetBefore(t, rf, alive, w, n, i);
    forall x: nat | x <= last
      ensures Clockwise(t.ring, w.start, x).node !in w.outside
    {
      OnRing(t, alive, w.start, x);
      EarlyOwned(t.ring, w.start, size, Eligible(t), rf, x);
    }
    OutsidersInOrder(t.ring, w.start, last, w.outside, n, i);
    var rank := |Seen(t.ring, w.start, i, w.outside)|;
    assert w.candidates[rank] == n;
    forall k | k in w.owners
      ensures k in t.registry && (t.registry[k].phase.Draining? || (t.registry[k].phase.Ready? && alive(k)))
    {
      OwnersDrainOrServe(t, rf, alive, w, k);
    }
    NeedyAreDraining(t, w.owners, alive);
    SplitSeen(t, rf, alive, w, n, i);
    Sizes(Staying(t, w.owners), Seen(t.ring, w.start, i, w.outside), w.owners, DrainingAmong(t, w.owners));
    ClosestOwn(t.ring, w.start, TargetNodes(t), rf, n, i);
  }

  lemma StepTo(ring: seq<VNode>, start: nat, n: NodeId) returns (x: nat)
    requires start < |ring| && exists v :: v in ring && v.node == n
    ensures x < |ring| && Clockwise(ring, start, x).node == n
  {
    var v :| v in ring && v.node == n;
    var p :| 0 <= p < |ring| && ring[p] == v;
    x := if p >= start then p - start else p + |ring| - start;
  }

  lemma StayersReplicate(t: View, rf: nat, alive: NodeId -> bool, w: Walked, n: NodeId)
    requires Draws(t, rf, alive, w) && n in w.owners && t.registry[n].phase.Ready?
    ensures n in Owners(t.ring, w.start, |t.ring|, TargetNodes(t), rf)
  {
    OwnersDrainOrServe(t, rf, alive, w, n);
    var y := StepTo(t.ring, w.start, n);
    var i := Met(t.ring, w.start, n, |t.ring|, y);
    ClosestOwn(t.ring, w.start, Eligible(t), rf, n, i);
    ClosestOwn(t.ring, w.start, TargetNodes(t), rf, n, i);
    var few, many := Seen(t.ring, w.start, i, TargetNodes(t)), Seen(t.ring, w.start, i, Eligible(t));
    forall k | k in few
      ensures k in many
    {
      var x: nat :| x < i && Clockwise(t.ring, w.start, x).node in TargetNodes(t) && Clockwise(t.ring, w.start, x).node == k;
      OnRing(t, alive, w.start, x);
    }
    SubsetSize(few, many);
  }

  lemma WrittenReplicates(t: View, rf: nat, alive: NodeId -> bool, w: Walked, preferences: seq<Preference>, n: NodeId)
    requires Draws(t, rf, alive, w) && PrefersAll(t, w.owners, w.candidates, alive, preferences) && Written(preferences, n)
    ensures n in Owners(t.ring, w.start, |t.ring|, TargetNodes(t), rf)
  {
    var i :| 0 <= i < |preferences| && WriteTarget(preferences[i]) == Some(n);
    assert Prefers(t, w.owners, w.candidates, alive, i, preferences[i]);
    if preferences[i].handoff.Some? {
      NeedyBelow(t, w.owners, alive, i);
      var k := Needy(t, w.owners[..i], alive);
      assert w.candidates[k] == n && n in w.candidates;
      var again := Lower(t.ring, Clockwise(t.ring, w.start, LastStep(t.ring, w.start, |t.ring|, Eligible(t), rf)).token);
      OwnersOnRing(t.ring, again, |t.ring|, w.outside, 0, n);
      OutsiderReplicates(t, rf, alive, w, n);
    } else {
      assert n == w.owners[i];
      StayersReplicate(t, rf, alive, w, n);
    }
  }

  lemma StayerWritten(t: View, rf: nat, alive: NodeId -> bool, w: Walked, preferences: seq<Preference>, n: NodeId)
    requires Draws(t, rf, alive, w) && PrefersAll(t, w.owners, w.candidates, alive, preferences)
    requires n in w.owners && n in TargetNodes(t)
    ensures Written(preferences, n)
  {
    OwnersDrainOrServe(t, rf, alive, w, n);
    var i :| 0 <= i < |w.owners| && w.owners[i] == n;
    assert Prefers(t, w.owners, w.candidates, alive, i, preferences[i]);
    assert WriteTarget(preferences[i]) == Some(n);
  }

  lemma SubstituteWritten(t: View, alive: NodeId -> bool, owners: seq<NodeId>, candidates: seq<NodeId>, preferences: seq<Preference>, k: nat)
    requires PrefersAll(t, owners, candidates, alive, preferences) && k < |candidates| && k < Needy(t, owners, alive)
    ensures Written(preferences, candidates[k])
  {
    var i := NeedyIndex(t, owners, alive, k);
    assert Prefers(t, owners, candidates, alive, i, preferences[i]);
    assert WriteTarget(preferences[i]) == Some(candidates[k]);
  }

  lemma ReplicaWritten(t: View, rf: nat, alive: NodeId -> bool, w: Walked, preferences: seq<Preference>, n: NodeId)
    requires Draws(t, rf, alive, w) && PrefersAll(t, w.owners, w.candidates, alive, preferences)
    requires n in Owners(t.ring, w.start, |t.ring|, TargetNodes(t), rf)
    ensures Written(preferences, n)
  {
    if n in w.owners {
      StayerWritten(t, rf, alive, w, preferences, n);
    } else {
      OwnersOnRing(t.ring, w.start, |t.ring|, TargetNodes(t), rf, n);
      OutsiderReplicates(t, rf, alive, w, n);
      var k :| 0 <= k < |w.candidates| && k < Needy(t, w.owners, alive) && w.candidates[k] == n;
      SubstituteWritten(t, alive, w.owners, w.candidates, preferences, k);
    }
  }

  /** While members only drain, writes go to the target replicas of the partition and to no other node. */
  lemma WritesReachReplicas(p: Partitioner, t: View, pid: nat, rf: nat, alive: NodeId -> bool, preferences: seq<Preference>, n: NodeId)
    requires Proper(p) && Coherent(t) && |t.ring| > 0 && rf > 0 && OnlyDraining(t, alive)
    requires PrefersAll(t, PreferredOwners(p, t, pid, rf), Candidates(t, StartOf(p, t.ring, pid), rf, alive), alive, preferences)
    ensures Written(preferences, n) <==> n in Replicas(p, t, pid, rf)
  {
    var start := StartOf(p, t.ring, pid);
    SuccessorBoundary(t.ring, PartitionEnd(p, pid));
    var owners := PreferredOwners(p, t, pid, rf);
    var w := Walked(start, owners, Substitutes(t, alive, owners), Candidates(t, start, rf, alive));
    if Written(preferences, n) {
      WrittenReplicates(t, rf, alive, w, preferences, n);
    }
    if n in Replicas(p, t, pid, rf) {
      ReplicaWritten(t, rf, alive, w, preferences, n);
    }
  }
}
