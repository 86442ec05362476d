/**
Cluster membership: the registry keeps the highest epoch of every member, and the ring is
derived from it, one accepted record at a time.
*/
module Topology {
  import opened ByteOrder
  import opened Codec
  import opened Ring

  datatype Phase = Idle | Joining | Ready | Paused | Draining | Failed

  datatype Member = Member(node: NodeId, peer: Bytes, epoch: nat, phase: Phase, tokens: seq<nat>)

  type Registry = map<NodeId, Member>

  predicate InRing(m: Member) {
    m.phase.Joining? || m.phase.Ready? || m.phase.Paused? || m.phase.Draining?
  }

  function VNodes(node: NodeId, tokens: seq<nat>): seq<VNode> {
    if |tokens| == 0 then [] else [VNode(tokens[0], node)] + VNodes(node, tokens[1..])
  }

  lemma {:induction false} VNodesOwned(node: NodeId, tokens: seq<nat>, v: VNode)
    requires v.node != node
    ensures multiset(VNodes(node, tokens))[v] == 0
  {
    if |tokens| > 0 {
      VNodesOwned(node, tokens[1..], v);
      JoinCounts(VNode(tokens[0], node), VNodes(node, tokens[1..]));
    }
  }

  /** A stable sort by token. */
  function SortByToken(vnodes: seq<VNode>): seq<VNode> {
    if |vnodes| == 0 then []
    else Merged(SortByToken(vnodes[..|vnodes| - 1]), [vnodes[|vnodes| - 1]])
  }

  lemma {:induction false} SortByTokenSorts(vnodes: seq<VNode>)
    ensures Sorted(SortByToken(vnodes)) && multiset(SortByToken(vnodes)) == multiset(vnodes)
  {
    if |vnodes| > 0 {
      var init, last := vnodes[..|vnodes| - 1], [vnodes[|vnodes| - 1]];
      SortByTokenSorts(init);
      MergedSorted(SortByToken(init), last);
      MergedContents(SortByToken(init), last);
      assert vnodes == init + last;
    }
  }

  // -------------------------------------------------------------- registry

  function Upsert(reg: Registry, m: Member): Registry {
    if m.node in reg && m.epoch <= reg[m.node].epoch then reg else reg[m.node := m]
  }

  function UpsertAll(reg: Registry, members: seq<Member>): Registry {
    if |members| == 0 then reg
    else Upsert(UpsertAll(reg, members[..|members| - 1]), members[|members| - 1])
  }

  predicate Keyed(reg: Registry) {
    forall n :: n in reg ==> reg[n].node == n
  }

  /** Everything the first registry knows, the second knows as well or better. */
  predicate NoOlder(a: Registry, b: Registry) {
    forall n :: n in a ==> n in b && a[n].epoch <= b[n].epoch
  }

  /** The registry holds, for every node named in `s`, one of its records of greatest epoch. */
  ghost predicate IsJoin(reg: Registry, s: set<Member>) {
    && (forall m :: m in s ==> m.node in reg && m.epoch <= reg[m.node].epoch)
    && (forall n :: n in reg ==> reg[n] in s && reg[n].node == n)
  }

  lemma {:induction false} UpsertAllJoins(members: seq<Member>)
    ensures IsJoin(UpsertAll(map[], members), set m | m in members)
  {
    if |members| > 0 {
      var init, last := members[..|members| - 1], members[|members| - 1];
      UpsertAllJoins(init);
      assert members == init + [last];
    }
  }

  /** No two different records of one node share the greatest epoch. */
  ghost predicate Decided(s: set<Member>) {
    forall m, k :: Topmost(m, s) && Topmost(k, s) && m.node == k.node ==> m == k
  }

  ghost predicate Topmost(m: Member, s: set<Member>) {
    m in s && forall k :: k in s && k.node == m.node ==> k.epoch <= m.epoch
  }

  lemma JoinUnique(a: Registry, b: Registry, s: set<Member>)
    requires IsJoin(a, s) && IsJoin(b, s) && Decided(s)
    ensures a == b
  {
    forall n | n in a || n in b
      ensures n in a && n in b && a[n] == b[n]
    {
      var m := if n in a then a[n] else b[n];
      assert m in s;
      assert Topmost(a[n], s) && Topmost(b[n], s);
    }
  }

  /** A record nothing supersedes stays. */
  lemma {:induction false} TopmostStays(reg: Registry, members: seq<Member>, m: Member)
    requires m.node in reg && reg[m.node] == m
    requires forall k :: k in members && k.node == m.node ==> k.epoch <= m.epoch
    ensures m.node in UpsertAll(reg, members) && UpsertAll(reg, members)[m.node] == m
  {
    if |members| > 0 {
      TopmostStays(reg, members[..|members| - 1], m);
    }
  }

  lemma {:induction false} UpsertAllJoin(reg: Registry, a: seq<Member>, b: seq<Member>)
    ensures UpsertAll(reg, a + b) == UpsertAll(UpsertAll(reg, a), b)
  {
    if |b| == 0 {
      assert a + b == a;
    } else {
      assert (a + b)[..|a + b| - 1] == a + b[..|b| - 1];
      UpsertAllJoin(reg, a, b[..|b| - 1]);
    }
  }

  lemma {:induction false} Listing(s: set<Member>) returns (members: seq<Member>)
    ensures (set m | m in members) == s
    decreases |s|
  {
    if s == {} {
      members := [];
    } else {
      var m :| m in s;
      var rest := Listing(s - {m});
      members := rest + [m];
      assert (set k | k in members) == (set k | k in rest) + {m};
    }
  }

  ghost predicate Lists(members: seq<Member>, s: set<Member>) {
    (set m | m in members) == s
  }

  ghost predicate RegistriesAgree(s: set<Member>) {
    forall a, b :: Lists(a, s) && Lists(b, s) ==> UpsertAll(map[], a) == UpsertAll(map[], b)
  }

  /**
   * Every order of the same records, repeats included, builds the same registry, exactly
   * when no node has two different records at its greatest epoch.
   */
  lemma RegistryConverges(s: set<Member>)
    ensures RegistriesAgree(s) <==> Decided(s)
  {
    if Decided(s) {
      forall a, b | Lists(a, s) && Lists(b, s)
        ensures UpsertAll(map[], a) == UpsertAll(map[], b)
      {
        UpsertAllJoins(a);
        UpsertAllJoins(b);
        JoinUnique(UpsertAll(map[], a), UpsertAll(map[], b), s);
      }
    }
    if RegistriesAgree(s) {
      forall m, k | Topmost(m, s) && Topmost(k, s) && m.node == k.node
        ensures m == k
      {
        var all := Listing(s);
        FirstWins(m, all, s);
        FirstWins(k, all, s);
      }
    }
  }

  lemma FirstWins(m: Member, all: seq<Member>, s: set<Member>)
    requires Lists(all, s) && Topmost(m, s)
    ensures Lists([m] + all, s)
    ensures m.node in UpsertAll(map[], [m] + all) && UpsertAll(map[], [m] + all)[m.node] == m
  {
    assert (set k | k in [m] + all) == (set k | k in all) + {m};
    assert UpsertAll(map[], [m]) == map[m.node := m] by {
      assert [m][..0] == [];
    }
    UpsertAllJoin(map[], [m], all);
    TopmostStays(map[m.node := m], all, m);
  }

  // ------------------------------------------------------------------ ring

  /** How often the vnodes of ring members hold `v`. */
  function RingCount(reg: Registry, v: VNode): nat {
    if v.node in reg && InRing(reg[v.node]) then multiset(VNodes(v.node, reg[v.node].tokens))[v] else 0
  }

  /** The ring holds exactly the vnodes of the members in a ring phase, in token order. */
  ghost predicate Reflects(ring: seq<VNode>, reg: Registry) {
    Sorted(ring) && forall v :: multiset(ring)[v] == RingCount(reg, v)
  }

  /** The ring with the vnodes of one node replaced by those of its new record, or by none. */
  function Refresh(ring: seq<VNode>, m: Member): seq<VNode> {
    var others := Without(ring, m.node);
    if InRing(m) then Merged(others, SortByToken(VNodes(m.node, m.tokens))) else others
  }

  lemma RefreshCounts(ring: seq<VNode>, m: Member, v: VNode)
    ensures multiset(Refresh(ring, m))[v] ==
            if v.node != m.node then multiset(ring)[v]
            else if InRing(m) then multiset(VNodes(m.node, m.tokens))[v]
            else 0
  {
    var others, own := Without(ring, m.node), VNodes(m.node, m.tokens);
    SortByTokenSorts(own);
    MergedContents(others, SortByToken(own));
    WithoutCounts(ring, m.node, v);
    if v.node != m.node {
      VNodesOwned(m.node, m.tokens, v);
    }
  }

  lemma RefreshReflects(ring: seq<VNode>, reg: Registry, m: Member)
    requires Reflects(ring, reg)
    ensures Reflects(Refresh(ring, m), reg[m.node := m])
  {
    WithoutSorted(ring, m.node);
    SortByTokenSorts(VNodes(m.node, m.tokens));
    MergedSorted(Without(ring, m.node), SortByToken(VNodes(m.node, m.tokens)));
    forall v
      ensures multiset(Refresh(ring, m))[v] == RingCount(reg[m.node := m], v)
    {
      RefreshCounts(ring, m, v);
    }
  }

  /** A vnode owner of the ring is a registered member in a ring phase. */
  lemma OwnerKnown(ring: seq<VNode>, reg: Registry, v: VNode)
    requires Reflects(ring, reg) && v in ring
    ensures v.node in reg && InRing(reg[v.node])
  {
    assert multiset(ring)[v] > 0;
  }

  datatype View = View(registry: Registry, ring: seq<VNode>)

  /** One record, applied to the registry and the ring. */
  function Applied(t: View, m: Member): View {
    if m.node in t.registry && m.epoch <= t.registry[m.node].epoch then t
    else View(Upsert(t.registry, m), Refresh(t.ring, m))
  }

  function AppliedAll(t: View, members: seq<Member>): View {
    if |members| == 0 then t
    else Applied(AppliedAll(t, members[..|members| - 1]), members[|members| - 1])
  }

  /** An accepted record changes the ring, or the phase of a member that is in it. */
  predicate Changes(t: View, m: Member) {
    var after := Applied(t, m);
    after.registry != t.registry && (after.ring != t.ring || (InRing(m) && PhaseIn(t.registry, m.node) != m.phase))
  }

  /** How many of the records do, each on top of those before it. */
  function Changing(t: View, members: seq<Member>): nat {
    if |members| == 0 then 0
    else
      var init := members[..|members| - 1];
      Changing(t, init) + (if Changes(AppliedAll(t, init), members[|members| - 1]) then 1 else 0)
  }

  ghost predicate Coherent(t: View) {
    Keyed(t.registry) && Reflects(t.ring, t.registry)
  }

  lemma AppliedCoherent(t: View, m: Member)
    requires Coherent(t)
    ensures Coherent(Applied(t, m)) && NoOlder(t.registry, Applied(t, m).registry)
    ensures Applied(t, m).registry == Upsert(t.registry, m)
  {
    RefreshReflects(t.ring, t.registry, m);
  }

  lemma {:induction false} AppliedAllCoherent(t: View, members: seq<Member>)
    requires Coherent(t)
    ensures Coherent(AppliedAll(t, members)) && NoOlder(t.registry, AppliedAll(t, members).registry)
    ensures AppliedAll(t, members).registry == UpsertAll(t.registry, members)
  {
    if |members| > 0 {
      AppliedAllCoherent(t, members[..|members| - 1]);
      AppliedCoherent(AppliedAll(t, members[..|members| - 1]), members[|members| - 1]);
    }
  }

  /** The ring holds exactly the vnodes of members that are joining, ready, paused or draining. */
  lemma RingShowsPhases(t: View, v: VNode)
    requires Coherent(t)
    ensures v in t.ring <==>
            && v.node in t.registry && v.token in t.registry[v.node].tokens
            && t.registry[v.node].phase in {Joining, Ready, Paused, Draining}
  {
    if v.node in t.registry {
      VNodesHold(v.node, t.registry[v.node].tokens, v);
    }
    assert v in t.ring <==> multiset(t.ring)[v] > 0;
    assert multiset(t.ring)[v] == RingCount(t.registry, v);
  }

  lemma {:induction false} VNodesHold(node: NodeId, tokens: seq<nat>, v: VNode)
    ensures multiset(VNodes(node, tokens))[v] > 0 <==> v.node == node && v.token in tokens
  {
    if |tokens| > 0 {
      VNodesHold(node, tokens[1..], v);
      JoinCounts(VNode(tokens[0], node), VNodes(node, tokens[1..]));
      assert tokens == [tokens[0]] + tokens[1..];
    }
  }

  /** Vnodes at one token belong to one node. */
  ghost predicate TokensApart(reg: Registry) {
    forall v, w: VNode :: RingCount(reg, v) > 0 && RingCount(reg, w) > 0 && v.token == w.token ==> v == w
  }

  const EMPTY := View(map[], [])

  ghost predicate RingsAgree(s: set<Member>) {
    forall a, b :: Lists(a, s) && Lists(b, s) ==> AppliedAll(EMPTY, a).ring == AppliedAll(EMPTY, b).ring
  }

  lemma EmptyCoherent()
    ensures Coherent(EMPTY)
  {
  }

  lemma ApartDecides(ring: seq<VNode>, reg: Registry)
    requires Reflects(ring, reg) && TokensApart(reg)
    ensures TokensDecide(ring)
  {
    forall i, j | 0 <= i < j < |ring| && ring[i].token == ring[j].token
      ensures ring[i] == ring[j]
    {
      assert ring[i] in multiset(ring) && ring[j] in multiset(ring);
      assert RingCount(reg, ring[i]) > 0 && RingCount(reg, ring[j]) > 0;
    }
  }

  lemma WinnerAccepted(s: set<Member>, m: Member, rest: seq<Member>)
    requires Decided(s) && Topmost(m, s) && Lists(rest, s - {m})
    ensures var t := AppliedAll(EMPTY, rest); AppliedAll(EMPTY, rest + [m]).ring == Refresh(t.ring, m)
    ensures Sorted(AppliedAll(EMPTY, rest).ring)
  {
    EmptyCoherent();
    AppliedAllCoherent(EMPTY, rest);
    UpsertAllJoins(rest);
    assert (rest + [m])[..|rest|] == rest;
    var t := AppliedAll(EMPTY, rest);
    if m.node in t.registry {
      var k := t.registry[m.node];
      assert k in s - {m};
      assert k.epoch == m.epoch ==> Topmost(k, s);
    }
  }

  lemma RefreshBefore(ring: seq<VNode>, m: Member, v: VNode, w: VNode)
    requires Sorted(ring) && InRing(m) && v.node == m.node != w.node && w.token <= v.token
    ensures Before(Refresh(ring, m), w, v)
  {
    var others, own := Without(ring, m.node), SortByToken(VNodes(m.node, m.tokens));
    WithoutSorted(ring, m.node);
    WithoutCounts(ring, m.node, v);
    SortByTokenSorts(VNodes(m.node, m.tokens));
    VNodesOwned(m.node, m.tokens, w);
    assert v !in multiset(others) && w !in multiset(own);
    MergedBefore(others, own, w, v);
  }

  /** Applied last, the winning record of a node puts its vnodes after every other at their tokens. */
  lemma LastOneIn(s: set<Member>, m: Member, v: VNode, w: VNode) returns (all: seq<Member>)
    requires Decided(s) && Topmost(m, s) && InRing(m) && v.node == m.node != w.node && w.token <= v.token
    ensures Lists(all, s) && Before(AppliedAll(EMPTY, all).ring, w, v)
  {
    var rest := Listing(s - {m});
    all := rest + [m];
    assert (set k | k in all) == (set k | k in rest) + {m};
    WinnerAccepted(s, m, rest);
    RefreshBefore(AppliedAll(EMPTY, rest).ring, m, v, w);
  }

  lemma RingHolds(s: set<Member>, all: seq<Member>, v: VNode)
    requires Lists(all, s)
    ensures v in AppliedAll(EMPTY, all).ring <==> RingCount(UpsertAll(map[], all), v) > 0
  {
    EmptyCoherent();
    AppliedAllCoherent(EMPTY, all);
    var ring := AppliedAll(EMPTY, all).ring;
    assert v in ring <==> v in multiset(ring);
  }

  lemma SharedTokenSplits(s: set<Member>, reg: Registry, v: VNode, w: VNode)
    requires Decided(s) && IsJoin(reg, s) && RingsAgree(s)
    requires RingCount(reg, v) > 0 && RingCount(reg, w) > 0 && v.token == w.token
    ensures v == w
  {
    if v != w {
      var a := LastOneIn(s, reg[v.node], v, w);
      var b := LastOneIn(s, reg[w.node], w, v);
      var ring := AppliedAll(EMPTY, a).ring;
      UpsertAllJoins(a);
      JoinUnique(reg, UpsertAll(map[], a), s);
      RingHolds(s, a, v);
      RingHolds(s, a, w);
      NotBothWays(ring, w, v);
      assert false;
    }
  }

  /**
   * Every order of the same records also builds the same ring, exactly when no two members
   * of the ring claim one token.
   */
  lemma RingConverges(s: set<Member>, reg: Registry)
    requires Decided(s) && IsJoin(reg, s)
    ensures RingsAgree(s) <==> TokensApart(reg)
  {
    if TokensApart(reg) {
      forall a, b | Lists(a, s) && Lists(b, s)
        ensures AppliedAll(EMPTY, a).ring == AppliedAll(EMPTY, b).ring
      {
        var r, t := AppliedAll(EMPTY, a).ring, AppliedAll(EMPTY, b).ring;
        RingOf(a, s, reg);
        RingOf(b, s, reg);
        ApartDecides(r, reg);
        assert multiset(r) == multiset(t);
        SortedUnique(r, t);
      }
    }
    if RingsAgree(s) {
      forall v, w: VNode | RingCount(reg, v) > 0 && RingCount(reg, w) > 0 && v.token == w.token
        ensures v == w
      {
        SharedTokenSplits(s, reg, v, w);
      }
    }
  }

  lemma RingOf(all: seq<Member>, s: set<Member>, reg: Registry)
    requires Lists(all, s) && Decided(s) && IsJoin(reg, s)
    ensures Reflects(AppliedAll(EMPTY, all).ring, reg)
  {
    EmptyCoherent();
    AppliedAllCoherent(EMPTY, all);
    UpsertAllJoins(all);
    JoinUnique(reg, UpsertAll(map[], all), s);
  }

  /** Two ring members on one token: the one applied first comes first in the ring. */
  lemma SharedTokenDisagrees(a: Member, b: Member, token: nat)
    requires a.node != b.node && InRing(a) && InRing(b) && a.tokens == [token] == b.tokens
    ensures AppliedAll(EMPTY, [a, b]).ring == [VNode(token, a.node), VNode(token, b.node)]
    ensures AppliedAll(EMPTY, [b, a]).ring == [VNode(token, b.node), VNode(token, a.node)]
    ensures AppliedAll(EMPTY, [a, b]).registry == AppliedAll(EMPTY, [b, a]).registry
  {
    AppliedPair(a, b, token);
    AppliedPair(b, a, token);
  }

  lemma AppliedPair(a: Member, b: Member, token: nat)
    requires a.node != b.node && InRing(a) && InRing(b) && a.tokens == [token] == b.tokens
    ensures AppliedAll(EMPTY, [a, b]) ==
            View(map[a.node := a, b.node := b], [VNode(token, a.node), VNode(token, b.node)])
  {
    var va, vb := VNode(token, a.node), VNode(token, b.node);
    OneVNode(a.node, token);
    OneVNode(b.node, token);
    assert [a, b][..1] == [a] && [a][..0] == [];
    assert Without([], a.node) == [] && Merged([], [va]) == [va];
    assert AppliedAll(EMPTY, [a]) == View(map[a.node := a], [va]);
    assert Without([va], b.node) == [va] by {
      assert [va][1..] == [];
    }
    assert Merged([va], [vb]) == [va, vb] by {
      assert [va][1..] == [] && Merged([], [vb]) == [vb];
    }
  }

  lemma OneVNode(node: NodeId, token: nat)
    ensures VNodes(node, [token]) == [VNode(token, node)] && SortByToken([VNode(token, node)]) == [VNode(token, node)]
  {
    var v := VNode(token, node);
    assert [token][1..] == [] && [v][..0] == [];
    assert VNodes(node, []) == [];
    assert Merged([], [v]) == [v];
  }

  /** Owners of the ring have the phases they had. */
  ghost predicate SameOwners(ring: seq<VNode>, a: Registry, b: Registry) {
    forall v :: v in ring ==> v.node in a && v.node in b && a[v.node].phase == b[v.node].phase
  }

  /** An unknown node counts as idle. */
  function PhaseIn(reg: Registry, n: NodeId): Phase {
    if n in reg then reg[n].phase else Idle
  }

  class TopologyManager {
    var registry: Registry
    var ring: seq<VNode>
    var generation: nat

    ghost function Now(): View
      reads this
    {
      View(registry, ring)
    }

    constructor ()
      ensures registry == map[] && ring == [] && Coherent(Now())
    {
      registry, ring, generation := map[], [], 0;
    }

    /** Apply one record; true when the ring or the phase of one of its owners changed. */
    method Apply(m: Member) returns (changed: bool)
      requires Coherent(Now())
      modifies this`registry, this`ring
      ensures Now() == Applied(old(Now()), m) && Coherent(Now())
      ensures changed <==>
        registry != old(registry) && (ring != old(ring) || (InRing(m) && PhaseIn(old(registry), m.node) != m.phase))
      ensures !changed ==> ring == old(ring) && SameOwners(ring, old(registry), registry)
    {
      ghost var was := Now();
      AppliedCoherent(was, m);
      var before := ring;
      if m.node in registry && m.epoch <= registry[m.node].epoch {
        forall v | v in ring
          ensures v.node in registry
        {
          OwnerKnown(ring, registry, v);
        }
        return false;
      }
      var phase := PhaseIn(registry, m.node);
      assert m.node in registry ==> registry[m.node] != m;
      registry := registry[m.node := m];
      var others := Without(ring, m.node);
      if InRing(m) {
        WithoutSorted(ring, m.node);
        SortByTokenSorts(VNodes(m.node, m.tokens));
        ring := MergeSorted(others, SortByToken(VNodes(m.node, m.tokens)));
      } else {
        ring := others;
      }
      changed := ring != before || (phase != m.phase && InRing(m));
      if !changed {
        forall v | v in ring
          ensures v.node in was.registry && v.node in registry && was.registry[v.node].phase == registry[v.node].phase
        {
          OwnerKnown(was.ring, was.registry, v);
          OwnerKnown(ring, registry, v);
        }
      }
    }

    /** A generation read before a snapshot tells every later change of ownership. */
    method ApplyMember(m: Member) returns (changed: bool)
      requires Coherent(Now())
      modifies this
      ensures Now() == Applied(old(Now()), m) && Coherent(Now())
      ensures registry == Upsert(old(registry), m)
      ensures generation == old(generation) + (if changed then 1 else 0)
      ensures generation == old(generation) ==> ring == old(ring) && SameOwners(ring, old(registry), registry)
    {
      changed := Apply(m);
      if changed {
        generation := generation + 1;
      }
    }

    method MergeRegistry(members: seq<Member>) returns (accepted: nat)
      requires Coherent(Now())
      modifies this
      ensures Now() == AppliedAll(old(Now()), members) && Coherent(Now())
      ensures registry == UpsertAll(old(registry), members)
      ensures accepted == Changing(old(Now()), members)
      ensures generation == old(generation) + (if accepted > 0 then 1 else 0)
      ensures generation == old(generation) ==> ring == old(ring) && SameOwners(ring, old(registry), registry)
    {
      accepted := 0;
      forall v | v in ring
        ensures v.node in registry
      {
        OwnerKnown(ring, registry, v);
      }
      for i := 0 to |members|
        modifies this`registry, this`ring
        invariant Now() == AppliedAll(old(Now()), members[..i]) && Coherent(Now())
        invariant accepted == Changing(old(Now()), members[..i])
        invariant accepted == 0 ==> ring == old(ring) && SameOwners(ring, old(registry), registry)
      {
        assert members[..i + 1][..i] == members[..i];
        var changed := Apply(members[i]);
        if changed {
          accepted := accepted + 1;
        }
      }
      assert members[..|members|] == members;
      AppliedAllCoherent(old(Now()), members);
      if accepted > 0 {
        generation := generation + 1;
      }
    }
  }
}
