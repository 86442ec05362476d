/**
One anti-entropy round of membership gossip: a digest of epochs, pages of newer members,
and a push of what the responder wants.
*/
module Gossip {
  import opened Codec
  import opened Scan
  import opened Topology

  const DELTA_SIZE: nat := 1024

  type Epochs = map<NodeId, nat>

  function Digest(reg: Registry): Epochs {
    map n | n in reg :: reg[n].epoch
  }

  /** The registry is ahead of the digest for this node. */
  predicate Ahead(reg: Registry, remote: Epochs, n: NodeId) {
    n in reg && (n !in remote || reg[n].epoch > remote[n])
  }

  /** The digest is ahead of the registry for this node. */
  predicate Wanted(reg: Registry, remote: Epochs, n: NodeId) {
    n in remote && (n !in reg || remote[n] > reg[n].epoch)
  }

  datatype Page = Page(members: seq<Member>, more: bool, after: NodeId, wanted: seq<NodeId>)

  function Joined(pages: seq<Page>): seq<Member> {
    if |pages| == 0 then [] else Joined(pages[..|pages| - 1]) + pages[|pages| - 1].members
  }

  lemma JoinedGain(pages: seq<Page>, page: Page)
    ensures Joined(pages + [page]) == Joined(pages) + page.members
  {
    assert (pages + [page])[..|pages|] == pages;
  }

  /** Members of the registry in node order, those the predicate keeps and no others. */
  ghost predicate Enumerates(members: seq<Member>, reg: Registry, order: NodeId -> real, keep: NodeId -> bool) {
    && (forall i, j :: 0 <= i < j < |members| ==> order(members[i].node) < order(members[j].node))
    && (forall m :: m in members ==> m.node in reg && reg[m.node] == m && keep(m.node))
    && (forall n :: n in reg && keep(n) ==> reg[n] in members)
  }

  /** Members listed so far are those ahead among the first nodes, in node order. */
  ghost predicate Listed(members: seq<Member>, nodes: seq<NodeId>, reg: Registry, order: NodeId -> real, remote: Epochs) {
    && (forall i, j :: 0 <= i < j < |members| ==> order(members[i].node) < order(members[j].node))
    && (forall m :: m in members ==> m.node in nodes && m.node in reg && reg[m.node] == m && Ahead(reg, remote, m.node))
    && (forall n :: n in nodes && Ahead(reg, remote, n) ==> reg[n] in members)
  }

  lemma ListedGain(members: seq<Member>, nodes: seq<NodeId>, n: NodeId, reg: Registry, order: NodeId -> real, remote: Epochs)
    requires Listed(members, nodes, reg, order, remote) && n in reg && reg[n].node == n
    requires forall k :: k in nodes ==> order(k) < order(n)
    ensures Listed(if Ahead(reg, remote, n) then members + [reg[n]] else members, nodes + [n], reg, order, remote)
  {
  }

  /** The nodes before the `i`th come before it, and it is in the registry. */
  lemma NextInOrder(order: NodeId -> real, reg: Registry, nodes: seq<NodeId>, i: nat)
    requires Ascending(nodes, order) && i < |nodes| && (forall n :: n in nodes <==> n in reg.Keys)
    ensures nodes[i] in reg && nodes[..i + 1] == nodes[..i] + [nodes[i]]
    ensures forall k :: k in nodes[..i] ==> order(k) < order(nodes[i])
  {
    assert nodes[i] in nodes;
  }

  lemma ListedAll(members: seq<Member>, nodes: seq<NodeId>, reg: Registry, order: NodeId -> real, remote: Epochs)
    requires Listed(members, nodes, reg, order, remote) && forall n :: n in nodes <==> n in reg.Keys
    ensures Enumerates(members, reg, order, n => Ahead(reg, remote, n))
  {
  }

  method Newer(order: NodeId -> real, reg: Registry, remote: Epochs) returns (members: seq<Member>)
    requires Injective(order, reg.Keys) && Keyed(reg)
    ensures Enumerates(members, reg, order, n => Ahead(reg, remote, n))
  {
    var nodes := Sort(reg.Keys, order);
    members := [];
    for i := 0 to |nodes|
      invariant Listed(members, nodes[..i], reg, order, remote)
    {
      NextInOrder(order, reg, nodes, i);
      ListedGain(members, nodes[..i], nodes[i], reg, order, remote);
      if Ahead(reg, remote, nodes[i]) {
        members := members + [reg[nodes[i]]];
      }
    }
    assert nodes[..|nodes|] == nodes;
    ListedAll(members, nodes, reg, order, remote);
  }

  method Wants(order: NodeId -> real, reg: Registry, remote: Epochs) returns (wanted: seq<NodeId>)
    requires Injective(order, remote.Keys)
    ensures Ascending(wanted, order) && forall n :: n in wanted <==> Wanted(reg, remote, n)
  {
    var s := set n | n in remote && Wanted(reg, remote, n);
    wanted := Sort(s, order);
  }

  /** First member beyond the cursor; the empty cursor stands before all of them. */
  method StartAfter(order: NodeId -> real, members: seq<Member>, after: NodeId) returns (start: nat)
    requires forall i, j :: 0 <= i < j < |members| ==> order(members[i].node) < order(members[j].node)
    ensures start <= |members|
    ensures after == [] ==> start == 0
    ensures after != [] ==> forall i :: 0 <= i < |members| ==> (i >= start <==> order(members[i].node) > order(after))
  {
    start := 0;
    if after == [] {
      return;
    }
    while start < |members| && order(members[start].node) <= order(after)
      invariant start <= |members|
      invariant forall i :: 0 <= i < start ==> order(members[i].node) <= order(after)
    {
      start := start + 1;
    }
  }

  /** A full page announces where the next one starts. */
  predicate Announces(page: Page) {
    page.more && |page.members| == DELTA_SIZE && page.after == page.members[DELTA_SIZE - 1].node
  }

  predicate WellPaged(pages: seq<Page>) {
    |pages| > 0 && !pages[|pages| - 1].more && |pages[|pages| - 1].members| <= DELTA_SIZE &&
    forall i :: 0 <= i < |pages| - 1 ==> Announces(pages[i])
  }

  lemma SliceGain(members: seq<Member>, first: nat, start: nat, end: nat)
    requires first <= start <= end <= |members|
    ensures members[first..end] == members[first..start] + members[start..end]
    ensures end == |members| ==> members[first..end] == members[first..]
  {
  }

  method Paginate(members: seq<Member>, first: nat, wanted: seq<NodeId>) returns (pages: seq<Page>)
    requires first <= |members|
    ensures WellPaged(pages) && Joined(pages) == members[first..]
    ensures forall i :: 0 <= i < |pages| ==> pages[i].wanted == wanted
  {
    pages := [];
    var start := first;
    while true
      invariant first <= start <= |members| && Joined(pages) == members[first..start]
      invariant forall i :: 0 <= i < |pages| ==> Announces(pages[i])
      invariant forall i :: 0 <= i < |pages| ==> pages[i].wanted == wanted
      decreases |members| - start
    {
      var end := if start + DELTA_SIZE < |members| then start + DELTA_SIZE else |members|;
      var batch := members[start..end];
      var more := end < |members|;
      var page := Page(batch, more, if more && |batch| > 0 then batch[|batch| - 1].node else [], wanted);
      JoinedGain(pages, page);
      SliceGain(members, first, start, end);
      pages := pages + [page];
      if !more {
        return;
      }
      start := end;
    }
  }

  /** Responder side of a digest: the members the caller lacks or holds stale, in pages. */
  method Delta(order: NodeId -> real, reg: Registry, remote: Epochs, after: NodeId) returns (pages: seq<Page>)
    requires Injective(order, reg.Keys) && Injective(order, remote.Keys) && Keyed(reg)
    ensures WellPaged(pages)
    ensures Enumerates(Joined(pages), reg, order, n => Ahead(reg, remote, n) && (after == [] || order(n) > order(after)))
    ensures forall i :: 0 <= i < |pages| ==> Ascending(pages[i].wanted, order)
    ensures forall i, n :: 0 <= i < |pages| ==> (n in pages[i].wanted <==> Wanted(reg, remote, n))
  {
    var members := Newer(order, reg, remote);
    var wanted := Wants(order, reg, remote);
    var start := StartAfter(order, members, after);
    pages := Paginate(members, start, wanted);
    TailEnumerates(order, reg, remote, after, members, start);
  }

  lemma TailEnumerates(order: NodeId -> real, reg: Registry, remote: Epochs, after: NodeId, members: seq<Member>, start: nat)
    requires Keyed(reg) && Enumerates(members, reg, order, n => Ahead(reg, remote, n)) && start <= |members|
    requires if after == [] then start == 0
             else forall i :: 0 <= i < |members| ==> (i >= start <==> order(members[i].node) > order(after))
    ensures Enumerates(members[start..], reg, order, n => Ahead(reg, remote, n) && (after == [] || order(n) > order(after)))
  {
    var listed := members[start..];
    forall n | n in reg && Ahead(reg, remote, n) && (after == [] || order(n) > order(after))
      ensures reg[n] in listed
    {
      assert reg[n] in members && reg[n].node == n;
      var i :| 0 <= i < |members| && members[i] == reg[n];
      assert i >= start && listed[i - start] == members[i];
    }
    forall m | m in listed
      ensures m in members && (after == [] || order(m.node) > order(after))
    {
      var i :| 0 <= i < |listed| && listed[i] == m;
      assert members[start + i] == m;
    }
  }

  // ----------------------------------------------------------------- round

  /** Pointwise, the record of greater epoch; the first registry's at equal epochs. */
  function Join(a: Registry, b: Registry): Registry {
    map n | n in a.Keys + b.Keys :: if n !in a || (n in b && b[n].epoch > a[n].epoch) then b[n] else a[n]
  }

  /** At equal epochs the two registries hold the same record. */
  predicate TiesAgree(a: Registry, b: Registry) {
    forall n :: n in a && n in b && a[n].epoch == b[n].epoch ==> a[n] == b[n]
  }

  lemma JoinsMeet(a: Registry, b: Registry)
    ensures Join(a, b) == Join(b, a) <==> TiesAgree(a, b)
  {
    if Join(a, b) == Join(b, a) {
      forall n | n in a && n in b && a[n].epoch == b[n].epoch
        ensures a[n] == b[n]
      {
        assert Join(a, b)[n] == a[n] && Join(b, a)[n] == b[n];
      }
    } else {
      var n :| n in a.Keys + b.Keys && Join(a, b)[n] != Join(b, a)[n];
      assert n in a && n in b;
    }
  }

  /** The join is a registry in which neither side's records are superseded, and invents none. */
  lemma JoinIsLeast(a: Registry, b: Registry, c: Registry)
    requires Keyed(a) && Keyed(b)
    ensures NoOlder(a, Join(a, b)) && NoOlder(b, Join(a, b))
    ensures NoOlder(a, c) && NoOlder(b, c) ==> NoOlder(Join(a, b), c)
    ensures IsJoin(Join(a, b), a.Values + b.Values)
  {
    forall m | m in a.Values + b.Values
      ensures m.node in Join(a, b) && m.epoch <= Join(a, b)[m.node].epoch
    {
      if m in a.Values {
        var n :| n in a && a[n] == m;
      } else {
        var n :| n in b && b[n] == m;
      }
    }
  }

  /** Newer records of a source replace what the registry holds, and nothing else moves. */
  lemma {:induction false} UpsertNewer(reg: Registry, members: seq<Member>, source: Registry)
    requires forall m :: m in members ==> m.node in source && source[m.node] == m
    requires forall m :: m in members ==> m.node !in reg || m.epoch > reg[m.node].epoch
    ensures var after := UpsertAll(reg, members);
            && (forall n :: n in after <==> n in reg || (n in source && source[n] in members && source[n].node == n))
            && (forall n :: n in after ==>
                  after[n] == if n in source && source[n] in members && source[n].node == n then source[n] else reg[n])
  {
    if |members| > 0 {
      var init, last := members[..|members| - 1], members[|members| - 1];
      assert members == init + [last];
      UpsertNewer(reg, init, source);
    }
  }

  /** Members of the registry the peer asked for. */
  method Asked(order: NodeId -> real, reg: Registry, wanted: set<NodeId>) returns (members: seq<Member>)
    requires Injective(order, reg.Keys) && Keyed(reg)
    ensures forall m :: m in members <==> m.node in wanted && m.node in reg && reg[m.node] == m
  {
    var nodes := Sort(reg.Keys, order);
    members := [];
    for i := 0 to |nodes|
      invariant forall m :: m in members <==> m.node in wanted && m.node in nodes[..i] && reg[m.node] == m
    {
      assert nodes[..i + 1] == nodes[..i] + [nodes[i]];
      if nodes[i] in wanted {
        members := members + [reg[nodes[i]]];
      }
    }
    assert nodes[..|nodes|] == nodes;
  }

  lemma PulledJoins(a: Registry, b: Registry, members: seq<Member>)
    requires Keyed(a) && Keyed(b)
    requires forall m :: m in members <==> m.node in b && b[m.node] == m && Ahead(b, Digest(a), m.node)
    ensures UpsertAll(a, members) == Join(a, b)
  {
    UpsertNewer(a, members, b);
    var after := UpsertAll(a, members);
    forall n | n in a || n in b
      ensures n in after && after[n] == Join(a, b)[n]
    {
      assert n in b ==> (b[n] in members <==> Ahead(b, Digest(a), n));
    }
    assert after.Keys == Join(a, b).Keys;
  }

  lemma PushedJoins(a: Registry, b: Registry, members: seq<Member>)
    requires Keyed(a) && Keyed(b)
    requires forall m :: m in members <==> m.node in Join(a, b) && Join(a, b)[m.node] == m && Wanted(b, Digest(a), m.node)
    ensures UpsertAll(b, members) == Join(b, a)
  {
    forall m
      ensures m in members <==> m.node in a && a[m.node] == m && Ahead(a, Digest(b), m.node)
    {
    }
    PulledJoins(b, a, members);
  }

  lemma Restrict(order: NodeId -> real, s: set<NodeId>, t: set<NodeId>)
    requires Injective(order, t) && s <= t
    ensures Injective(order, s)
  {
  }

  lemma PullStep(reg: Registry, pages: seq<Page>, i: nat)
    requires i < |pages|
    ensures UpsertAll(reg, Joined(pages[..i + 1])) == UpsertAll(UpsertAll(reg, Joined(pages[..i])), pages[i].members)
  {
    assert pages[..i + 1] == pages[..i] + [pages[i]];
    JoinedGain(pages[..i], pages[i]);
    UpsertAllJoin(reg, Joined(pages[..i]), pages[i].members);
  }

  /** Merge every page of the delta; remember what the responder wants. */
  method Pull(pages: seq<Page>, a: TopologyManager, ghost other: Registry) returns (wanted: set<NodeId>)
    requires Coherent(a.Now()) && WellPaged(pages)
    requires forall i, n :: 0 <= i < |pages| ==> (n in pages[i].wanted <==> Wanted(other, Digest(a.registry), n))
    modifies a
    ensures Coherent(a.Now()) && a.registry == UpsertAll(old(a.registry), Joined(pages))
    ensures forall n :: n in wanted <==> Wanted(other, Digest(old(a.registry)), n)
  {
    ghost var ra := a.registry;
    wanted := {};
    var i := 0;
    while i < |pages|
      invariant i <= |pages| && Coherent(a.Now())
      invariant a.registry == UpsertAll(ra, Joined(pages[..i]))
      invariant i == 0 ==> wanted == {}
      invariant i > 0 ==> forall n :: n in wanted <==> Wanted(other, Digest(ra), n)
    {
      var page := pages[i];
      PullStep(ra, pages, i);
      var accepted := a.MergeRegistry(page.members);
      var asked := set n | n in page.wanted;
      wanted := wanted + asked;
      i := i + 1;
      if !page.more {
        break;
      }
    }
    assert pages[..|pages|] == pages;
  }

  /** Digest, every delta page, then the push: each side ends at the join, keeping its own record at a tie. */
  method Round(order: NodeId -> real, a: TopologyManager, b: TopologyManager)
    requires a != b && Coherent(a.Now()) && Coherent(b.Now())
    requires Injective(order, a.registry.Keys + b.registry.Keys)
    modifies a, b
    ensures Coherent(a.Now()) && Coherent(b.Now())
    ensures a.registry == Join(old(a.registry), old(b.registry))
    ensures b.registry == Join(old(b.registry), old(a.registry))
    ensures a.registry == b.registry <==> TiesAgree(old(a.registry), old(b.registry))
  {
    ghost var ra, rb := a.registry, b.registry;
    var digest := Digest(a.registry);
    assert digest.Keys == ra.Keys;
    Restrict(order, ra.Keys, ra.Keys + rb.Keys);
    Restrict(order, rb.Keys, ra.Keys + rb.Keys);
    var pages := Delta(order, b.registry, digest, []);
    var wanted := Pull(pages, a, rb);
    PulledJoins(ra, rb, Joined(pages));
    assert a.registry.Keys == ra.Keys + rb.Keys;
    Push(order, a.registry, b, wanted, ra);
    JoinsMeet(ra, rb);
  }

  /** The closing push: the responder applies, one by one, the members it asked for. */
  method Push(order: NodeId -> real, held: Registry, b: TopologyManager, wanted: set<NodeId>, ghost sender: Registry)
    requires Coherent(b.Now()) && Keyed(sender) && held == Join(sender, b.registry)
    requires Injective(order, held.Keys) && forall n :: n in wanted <==> Wanted(b.registry, Digest(sender), n)
    modifies b
    ensures Coherent(b.Now()) && b.registry == Join(old(b.registry), sender)
  {
    var members := Asked(order, held, wanted);
    PushedJoins(sender, b.registry, members);
    Accept(b, members);
  }

  /** Apply pushed members one by one. */
  method Accept(b: TopologyManager, members: seq<Member>)
    requires Coherent(b.Now())
    modifies b
    ensures Coherent(b.Now()) && b.registry == UpsertAll(old(b.registry), members)
  {
    for i := 0 to |members|
      invariant Coherent(b.Now()) && b.registry == UpsertAll(old(b.registry), members[..i])
    {
      assert members[..i + 1][..i] == members[..i];
      var changed := b.ApplyMember(members[i]);
    }
    assert members[..|members|] == members;
  }
}
