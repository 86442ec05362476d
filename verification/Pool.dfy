/**
The peer connection pool: three bounded tiers of connections, leased by reference count and
closed only when nobody holds them.
*/
module Pool {
  import opened ByteOrder
  import opened Codec
  import opened Scan

  // --------------------------------------------------------------- ledger

  /** A pooled connection; `retired` counts the leases left on clients of earlier addresses. */
  datatype Peer = Peer(client: nat, bind: Bytes, refcount: int, retired: map<nat, int>, ephemeral: bool)

  type Peers = map<NodeId, Peer>

  type Leases = multiset<(NodeId, nat)>

  function Held(p: Peer, c: nat): int {
    if c == p.client then p.refcount else if c in p.retired then p.retired[c] else 0
  }

  predicate Uses(p: Peer, c: nat) {
    c == p.client || c in p.retired
  }

  predicate Unused(p: Peer) {
    p.refcount == 0 && p.retired == map[]
  }

  ghost predicate Sound(p: Peer, closed: set<nat>, next: nat) {
    && p.refcount >= 0 && p.client !in p.retired
    && (forall c :: c in p.retired ==> p.retired[c] > 0)
    && (forall c: nat :: Uses(p, c) ==> c < next && c !in closed)
  }

  /** Two peers share no client. */
  ghost predicate Separate(peers: Peers, i: NodeId, j: NodeId) {
    i in peers && j in peers && i != j ==> forall c: nat :: !(Uses(peers[i], c) && Uses(peers[j], c))
  }

  /** A pooled peer is sound, and its outstanding leases are what it counts. */
  ghost predicate Balanced(peers: Peers, leases: Leases, closed: set<nat>, next: nat, i: NodeId) {
    && (i in peers ==> Sound(peers[i], closed, next))
    && (forall c: nat :: leases[(i, c)] == if i in peers then Held(peers[i], c) else 0)
  }

  /** A client ever opened is closed, or some pooled peer still uses it. */
  ghost predicate Traced(peers: Peers, closed: set<nat>, c: nat) {
    c in closed || exists i :: i in peers && Uses(peers[i], c)
  }

  ghost predicate Ledger(peers: Peers, leases: Leases, closed: set<nat>, next: nat) {
    && (forall c :: c in closed ==> c < next)
    && (forall c: nat :: c < next ==> Traced(peers, closed, c))
    && (forall i :: Balanced(peers, leases, closed, next, i))
    && (forall i, j :: Separate(peers, i, j))
  }

  /** Nobody holds a closed client. */
  lemma LeasedStaysOpen(peers: Peers, leases: Leases, closed: set<nat>, next: nat, i: NodeId, c: nat)
    requires Ledger(peers, leases, closed, next) && (i, c) in leases
    ensures c !in closed && i in peers && Uses(peers[i], c)
  {
    assert Balanced(peers, leases, closed, next, i);
    assert leases[(i, c)] > 0;
  }

  /** No client leaks: one that was opened is closed and used by nobody, or open and used by exactly one peer. */
  lemma NoClientLeaks(peers: Peers, leases: Leases, closed: set<nat>, next: nat, c: nat)
    requires Ledger(peers, leases, closed, next) && c < next
    ensures c in closed <==> forall i :: i in peers ==> !Uses(peers[i], c)
    ensures forall i, j :: i in peers && j in peers && Uses(peers[i], c) && Uses(peers[j], c) ==> i == j
  {
    assert Traced(peers, closed, c);
    forall i | i in peers && Uses(peers[i], c)
      ensures c !in closed
    {
      assert Balanced(peers, leases, closed, next, i);
    }
    forall i, j | i in peers && j in peers && Uses(peers[i], c) && Uses(peers[j], c)
      ensures i == j
    {
      assert Separate(peers, i, j);
    }
  }

  /** Replace one peer: what it counts must move with the leases. */
  lemma LedgerUpdate(peers: Peers, leases: Leases, closed: set<nat>, next: nat, i: NodeId, p: Peer,
                     leases': Leases, closed': set<nat>, next': nat)
    requires Ledger(peers, leases, closed, next) && next <= next' && Sound(p, closed', next') && closed <= closed'
    requires forall c :: c in closed' && c !in closed ==> (i in peers && Uses(peers[i], c)) || next <= c < next'
    requires forall c: nat :: Uses(p, c) ==> (i in peers && Uses(peers[i], c)) || c >= next
    requires forall c: nat :: leases'[(i, c)] == Held(p, c)
    requires forall j, c: nat :: j != i ==> leases'[(j, c)] == leases[(j, c)]
    requires forall c: nat :: i in peers && Uses(peers[i], c) ==> Uses(p, c) || c in closed'
    requires forall c: nat :: next <= c < next' ==> Uses(p, c) || c in closed'
    ensures Ledger(peers[i := p], leases', closed', next')
  {
    var after := peers[i := p];
    forall c: nat | c < next'
      ensures Traced(after, closed', c)
    {
      if c < next && c !in closed {
        assert Traced(peers, closed, c);
        var j :| j in peers && Uses(peers[j], c);
        assert j != i ==> j in after && Uses(after[j], c);
      }
      assert i in after;
    }
    assert Balanced(peers, leases, closed, next, i);
    forall j
      ensures Balanced(after, leases', closed', next', j)
    {
      assert Balanced(peers, leases, closed, next, j);
      assert Separate(peers, i, j);
    }
    forall j, k
      ensures Separate(after, j, k)
    {
      assert Separate(peers, j, k);
      assert Balanced(peers, leases, closed, next, j) && Balanced(peers, leases, closed, next, k);
    }
  }

  lemma FailedConnect(peers: Peers, leases: Leases, closed: set<nat>, next: nat)
    requires Ledger(peers, leases, closed, next)
    ensures Ledger(peers, leases, closed + {next}, next + 1)
  {
    var more, later := closed + {next}, next + 1;
    forall i
      ensures Balanced(peers, leases, more, later, i)
    {
      assert Balanced(peers, leases, closed, next, i);
    }
    forall c: nat | c < later
      ensures Traced(peers, more, c)
    {
      assert c < next ==> Traced(peers, closed, c);
    }
  }

  /** A new peer on a new client, leased once. */
  lemma LedgerAdd(peers: Peers, leases: Leases, closed: set<nat>, next: nat, i: NodeId, p: Peer)
    requires Ledger(peers, leases, closed, next) && i !in peers && p.refcount == 1 && p.retired == map[] && p.client == next
    ensures Ledger(peers[i := p], leases + multiset{(i, next)}, closed, next + 1)
  {
    var leases' := leases + multiset{(i, next)};
    assert Balanced(peers, leases, closed, next, i);
    forall c: nat
      ensures leases'[(i, c)] == Held(p, c)
    {
      assert leases[(i, c)] == 0;
    }
    LedgerUpdate(peers, leases, closed, next, i, p, leases', closed, next + 1);
  }

  /** Drop a peer nobody uses and close its client. */
  lemma LedgerRemove(peers: Peers, leases: Leases, closed: set<nat>, next: nat, i: NodeId)
    requires Ledger(peers, leases, closed, next) && i in peers && Unused(peers[i])
    ensures Ledger(peers - {i}, leases, closed + {peers[i].client}, next)
  {
    var c, after := peers[i].client, peers - {i};
    assert Balanced(peers, leases, closed, next, i) && Uses(peers[i], c);
    forall d: nat | d < next
      ensures Traced(after, closed + {c}, d)
    {
      assert Traced(peers, closed, d);
      if d !in closed && d != c {
        var j :| j in peers && Uses(peers[j], d);
        assert j in after;
      }
    }
    forall j
      ensures Balanced(peers - {i}, leases, closed + {c}, next, j)
    {
      assert Balanced(peers, leases, closed, next, j);
      assert Separate(peers, i, j);
    }
    forall j, k
      ensures Separate(peers - {i}, j, k)
    {
      assert Separate(peers, j, k);
    }
  }

  function Leased(p: Peer): Peer {
    p.(refcount := p.refcount + 1)
  }

  lemma LeasedBalances(peers: Peers, leases: Leases, closed: set<nat>, next: nat, i: NodeId)
    requires Ledger(peers, leases, closed, next) && i in peers
    ensures Ledger(peers[i := Leased(peers[i])], leases + multiset{(i, peers[i].client)}, closed, next)
    ensures Leased(peers[i]).refcount > 0
  {
    var p := Leased(peers[i]);
    assert Balanced(peers, leases, closed, next, i);
    assert forall c: nat :: Uses(p, c) <==> Uses(peers[i], c);
    LedgerUpdate(peers, leases, closed, next, i, p, leases + multiset{(i, p.client)}, closed, next);
  }

  /** The peer on a new client; leases on the old one, if any, are remembered. */
  function Refreshed(p: Peer, client: nat, bind: Bytes): Peer {
    Peer(client, bind, 1, if p.refcount != 0 then p.retired[p.client := p.refcount] else p.retired, p.ephemeral)
  }

  lemma RefreshedBalances(peers: Peers, leases: Leases, closed: set<nat>, next: nat, i: NodeId, bind: Bytes)
    requires Ledger(peers, leases, closed, next) && i in peers && peers[i].retired == map[]
    ensures var p := peers[i];
            Ledger(peers[i := Refreshed(p, next, bind)], leases + multiset{(i, next)},
                   if p.refcount != 0 then closed else closed + {p.client}, next + 1)
  {
    var p, p' := peers[i], Refreshed(peers[i], next, bind);
    var leases', closed' := leases + multiset{(i, next)}, if p.refcount != 0 then closed else closed + {p.client};
    assert Balanced(peers, leases, closed, next, i);
    assert Sound(p, closed, next) && Uses(p, p.client);
    forall c: nat
      ensures leases'[(i, c)] == Held(p', c)
    {
      assert leases[(i, c)] == Held(p, c);
    }
    LedgerUpdate(peers, leases, closed, next, i, p', leases', closed', next + 1);
  }

  /** The peer after one of its clients is given back. */
  function Returned(p: Peer, c: nat): Peer
    requires Uses(p, c)
  {
    if c == p.client then p.(refcount := p.refcount - 1)
    else if p.retired[c] == 1 then p.(retired := p.retired - {c})
    else p.(retired := p.retired[c := p.retired[c] - 1])
  }

  lemma ReturnedBalances(peers: Peers, leases: Leases, closed: set<nat>, next: nat, i: NodeId, c: nat)
    requires Ledger(peers, leases, closed, next) && (i, c) in leases && i in peers && Uses(peers[i], c)
    ensures var p := peers[i];
            var gone := if c != p.client && p.retired[c] == 1 then {c} else {};
            Ledger(peers[i := Returned(p, c)], leases - multiset{(i, c)}, closed + gone, next)
  {
    var p, p' := peers[i], Returned(peers[i], c);
    var gone := if c != p.client && p.retired[c] == 1 then {c} else {};
    var leases' := leases - multiset{(i, c)};
    assert Balanced(peers, leases, closed, next, i);
    assert leases[(i, c)] == Held(p, c) > 0;
    assert forall d: nat :: Uses(p', d) ==> Uses(p, d) && d !in gone;
    forall d: nat
      ensures leases'[(i, d)] == Held(p', d)
    {
      assert leases[(i, d)] == Held(p, d);
    }
    assert Sound(p', closed + gone, next);
    LedgerUpdate(peers, leases, closed, next, i, p', leases', closed + gone, next);
  }

  // ---------------------------------------------------------------- tiers

  datatype Limits = Limits(size: nat, overflow: nat, priority: nat)

  /** All pooled peers, and the three tiers they live in. */
  datatype Tiers = Tiers(all: Peers, permanents: Peers, overflows: Peers, reserve: Peers, lru: seq<NodeId>)

  /** A connection beyond the permanent ones exists only while leased. */
  predicate Ephemeral(p: Peer) {
    p.ephemeral && !Unused(p)
  }

  /** A pooled peer lives in exactly one tier, and recency is kept for it exactly when that tier is the permanent one. */
  ghost predicate Placed(t: Tiers, i: NodeId) {
    && (i in t.lru <==> i in t.permanents)
    && if i in t.permanents then
         i !in t.overflows && i !in t.reserve && i in t.all && t.all[i] == t.permanents[i] && !t.permanents[i].ephemeral
       else if i in t.overflows then
         i !in t.reserve && i in t.all && t.all[i] == t.overflows[i] && Ephemeral(t.overflows[i])
       else if i in t.reserve then
         i in t.all && t.all[i] == t.reserve[i] && Ephemeral(t.reserve[i])
       else
         i !in t.all
  }

  ghost predicate Bounded(l: Limits, t: Tiers) {
    |t.permanents| <= l.size && |t.overflows| <= l.overflow && |t.reserve| <= l.priority
  }

  ghost predicate Tiered(l: Limits, t: Tiers) {
    Bounded(l, t) && Distinct(t.lru) && forall i :: Placed(t, i)
  }

  /** A peer rewritten in the tier it lives in. */
  function Rewritten(t: Tiers, i: NodeId, p: Peer): Tiers {
    if i in t.permanents then t.(all := t.all[i := p], permanents := t.permanents[i := p])
    else if i in t.overflows then t.(all := t.all[i := p], overflows := t.overflows[i := p])
    else t.(all := t.all[i := p], reserve := t.reserve[i := p])
  }

  lemma RewrittenTiered(l: Limits, t: Tiers, i: NodeId, p: Peer)
    requires Tiered(l, t) && i in t.all && p.ephemeral == t.all[i].ephemeral && (p.ephemeral ==> !Unused(p))
    ensures Tiered(l, Rewritten(t, i, p))
  {
    var t' := Rewritten(t, i, p);
    assert Placed(t, i);
    SameSize(t.permanents, i, p);
    SameSize(t.overflows, i, p);
    SameSize(t.reserve, i, p);
    forall j
      ensures Placed(t', j)
    {
      assert Placed(t, j);
    }
  }

  function AsPermanent(t: Tiers, i: NodeId, p: Peer): Tiers {
    t.(all := t.all[i := p], permanents := t.permanents[i := p], lru := t.lru + [i])
  }

  function AsOverflow(t: Tiers, i: NodeId, p: Peer): Tiers {
    t.(all := t.all[i := p], overflows := t.overflows[i := p])
  }

  function AsReserve(t: Tiers, i: NodeId, p: Peer): Tiers {
    t.(all := t.all[i := p], reserve := t.reserve[i := p])
  }

  lemma AddedTiered(l: Limits, t: Tiers, i: NodeId, p: Peer)
    requires Tiered(l, t) && i !in t.all && !Unused(p)
    ensures |t.permanents| < l.size && !p.ephemeral ==> Tiered(l, AsPermanent(t, i, p))
    ensures |t.overflows| < l.overflow && p.ephemeral ==> Tiered(l, AsOverflow(t, i, p))
    ensures |t.reserve| < l.priority && p.ephemeral ==> Tiered(l, AsReserve(t, i, p))
  {
    assert Placed(t, i);
    SameSize(t.permanents, i, p);
    SameSize(t.overflows, i, p);
    SameSize(t.reserve, i, p);
    forall j
      ensures !p.ephemeral ==> Placed(AsPermanent(t, i, p), j)
      ensures p.ephemeral ==> Placed(AsOverflow(t, i, p), j) && Placed(AsReserve(t, i, p), j)
    {
      assert Placed(t, j);
    }
  }

  /** A peer taken out of whatever tier it lives in. */
  function Dropped(t: Tiers, i: NodeId): Tiers {
    Tiers(t.all - {i}, t.permanents - {i}, t.overflows - {i}, t.reserve - {i}, Remove(t.lru, i))
  }

  lemma DroppedTiered(l: Limits, t: Tiers, i: NodeId)
    requires Tiered(l, t)
    ensures Tiered(l, Dropped(t, i))
  {
    RemoveTakes(t.lru, i);
    Smaller(t.permanents, i);
    Smaller(t.overflows, i);
    Smaller(t.reserve, i);
    forall j
      ensures Placed(Dropped(t, i), j)
    {
      assert Placed(t, j);
    }
  }

  function Touched(t: Tiers, i: NodeId): Tiers {
    t.(lru := Remove(t.lru, i) + [i])
  }

  lemma TouchedTiered(l: Limits, t: Tiers, i: NodeId)
    requires Tiered(l, t) && i in t.permanents
    ensures Tiered(l, Touched(t, i))
  {
    RemoveTakes(t.lru, i);
    assert i !in Remove(t.lru, i);
    forall j
      ensures Placed(Touched(t, i), j)
    {
      assert Placed(t, j);
    }
  }

  /** An overflow peer moved to the permanent tier. */
  function Promoted(t: Tiers, i: NodeId): Tiers
    requires i in t.overflows
  {
    var p := t.overflows[i].(ephemeral := false);
    Tiers(t.all[i := p], t.permanents[i := p], t.overflows - {i}, t.reserve, t.lru + [i])
  }

  lemma PromotedTiered(l: Limits, t: Tiers, i: NodeId)
    requires Tiered(l, t) && i in t.overflows && |t.permanents| < l.size
    ensures Tiered(l, Promoted(t, i)) && |Promoted(t, i).overflows| == |t.overflows| - 1
  {
    assert Placed(t, i);
    SameSize(t.permanents, i, t.overflows[i].(ephemeral := false));
    Smaller(t.overflows, i);
    forall j
      ensures Placed(Promoted(t, i), j)
    {
      assert Placed(t, j);
    }
  }

  lemma SameSize(a: Peers, i: NodeId, p: Peer)
    ensures i in a ==> a[i := p].Keys == a.Keys && |a[i := p]| == |a|
    ensures i !in a ==> |a[i := p]| == |a| + 1
  {
    assert a[i := p].Keys == a.Keys + {i};
    assert |a.Keys| == |a| && |a[i := p].Keys| == |a[i := p]|;
  }

  lemma Smaller(a: Peers, i: NodeId)
    ensures |a - {i}| == if i in a then |a| - 1 else |a|
  {
    assert (a - {i}).Keys == a.Keys - {i};
    assert |a.Keys| == |a| && |(a - {i}).Keys| == |a - {i}|;
  }

  function Remove(s: seq<NodeId>, i: NodeId): seq<NodeId> {
    if |s| == 0 then []
    else Remove(s[..|s| - 1], i) + (if s[|s| - 1] == i then [] else [s[|s| - 1]])
  }

  lemma {:induction false} RemoveTakes(s: seq<NodeId>, i: NodeId)
    ensures forall j :: j in Remove(s, i) <==> j in s && j != i
    ensures Distinct(s) ==> Distinct(Remove(s, i))
  {
    if |s| > 0 {
      var init, last := s[..|s| - 1], s[|s| - 1];
      RemoveTakes(init, i);
      assert s == init + [last];
      if Distinct(s) {
        assert Distinct(init) && last !in init;
        assert last !in Remove(init, i);
      }
    }
  }

  predicate Before(s: seq<NodeId>, j: NodeId, k: NodeId) {
    exists x, y :: 0 <= x < y < |s| && s[x] == j && s[y] == k
  }

  lemma BeforeLast(s: seq<NodeId>, i: NodeId, j: NodeId, k: NodeId)
    ensures Before(s + [i], j, k) <==> Before(s, j, k) || (k == i && j in s)
  {
    var t := s + [i];
    if Before(s, j, k) {
      var x, y :| 0 <= x < y < |s| && s[x] == j && s[y] == k;
      assert t[x] == j && t[y] == k;
    }
    if k == i && j in s {
      var x :| 0 <= x < |s| && s[x] == j;
      assert t[x] == j && t[|s|] == k;
    }
    if Before(t, j, k) {
      var x, y :| 0 <= x < y < |t| && t[x] == j && t[y] == k;
      assert s[x] == j && (y < |s| ==> s[y] == k);
    }
  }

  /** Taking one out keeps the order of the others. */
  lemma {:induction false} RemoveKeepsOrder(s: seq<NodeId>, i: NodeId, j: NodeId, k: NodeId)
    ensures Before(Remove(s, i), j, k) <==> Before(s, j, k) && j != i && k != i
  {
    if |s| > 0 {
      var init, last := s[..|s| - 1], s[|s| - 1];
      RemoveKeepsOrder(init, i, j, k);
      assert s == init + [last];
      BeforeLast(init, last, j, k);
      RemoveTakes(init, i);
      if last == i {
        assert Remove(s, i) == Remove(init, i);
      } else {
        BeforeLast(Remove(init, i), last, j, k);
      }
    }
  }

  // ---------------------------------------------------------- transitions

  /** The pool, the leases its callers hold, and the clients closed so far. */
  datatype State = State(tiers: Tiers, leases: Leases, closed: set<nat>, next: nat)

  ghost predicate Good(l: Limits, s: State) {
    Tiered(l, s.tiers) && Ledger(s.tiers.all, s.leases, s.closed, s.next)
  }

  /** Lease a pooled peer on its current client. */
  function Leasing(s: State, i: NodeId): State
    requires i in s.tiers.all
  {
    var p := s.tiers.all[i];
    s.(tiers := Rewritten(s.tiers, i, Leased(p)), leases := s.leases + multiset{(i, p.client)})
  }

  /** A connection attempt failed; its client is closed. */
  function Failing(s: State): State {
    s.(closed := s.closed + {s.next}, next := s.next + 1)
  }

  /** Lease a pooled peer on a new client of its new address. */
  function Refreshing(s: State, i: NodeId, bind: Bytes): State
    requires i in s.tiers.all
  {
    var p := s.tiers.all[i];
    State(Rewritten(s.tiers, i, Refreshed(p, s.next, bind)), s.leases + multiset{(i, s.next)},
          if p.refcount != 0 then s.closed else s.closed + {p.client}, s.next + 1)
  }

  datatype Tier = Main | Overflow | Reserve

  /** Pool a new peer, leased once. */
  function Adding(s: State, i: NodeId, bind: Bytes, tier: Tier): State {
    var p := Peer(s.next, bind, 1, map[], tier != Main);
    State(match tier
          case Main => AsPermanent(s.tiers, i, p)
          case Overflow => AsOverflow(s.tiers, i, p)
          case Reserve => AsReserve(s.tiers, i, p),
          s.leases + multiset{(i, s.next)}, s.closed, s.next + 1)
  }

  function Dropping(s: State, i: NodeId): State
    requires i in s.tiers.all
  {
    s.(tiers := Dropped(s.tiers, i), closed := s.closed + {s.tiers.all[i].client})
  }

  function Promoting(s: State, i: NodeId): State
    requires i in s.tiers.overflows
  {
    s.(tiers := Promoted(s.tiers, i))
  }

  lemma RewrittenGood(l: Limits, s: State, t: State, i: NodeId, p: Peer)
    requires Tiered(l, s.tiers) && i in s.tiers.all && t.tiers == Rewritten(s.tiers, i, p)
    requires p.ephemeral == s.tiers.all[i].ephemeral && (p.ephemeral ==> !Unused(p))
    requires Ledger(s.tiers.all[i := p], t.leases, t.closed, t.next)
    ensures Good(l, t)
  {
    RewrittenTiered(l, s.tiers, i, p);
    RewrittenAll(s.tiers, i, p);
  }

  lemma RewrittenAll(t: Tiers, i: NodeId, p: Peer)
    ensures Rewritten(t, i, p).all == t.all[i := p] && Rewritten(t, i, p).lru == t.lru
  {
  }

  lemma LeasingGood(l: Limits, s: State, i: NodeId)
    requires Good(l, s) && i in s.tiers.all
    ensures Good(l, Leasing(s, i))
  {
    LeasedBalances(s.tiers.all, s.leases, s.closed, s.next, i);
    RewrittenGood(l, s, Leasing(s, i), i, Leased(s.tiers.all[i]));
  }

  lemma FailingGood(l: Limits, s: State)
    requires Good(l, s)
    ensures Good(l, Failing(s))
  {
    FailedConnect(s.tiers.all, s.leases, s.closed, s.next);
  }

  lemma RefreshingGood(l: Limits, s: State, i: NodeId, bind: Bytes)
    requires Good(l, s) && i in s.tiers.all && s.tiers.all[i].retired == map[]
    ensures Good(l, Refreshing(s, i, bind))
  {
    RefreshedBalances(s.tiers.all, s.leases, s.closed, s.next, i, bind);
    RewrittenGood(l, s, Refreshing(s, i, bind), i, Refreshed(s.tiers.all[i], s.next, bind));
  }

  /** The tier has room for one more. */
  predicate Room(l: Limits, s: State, tier: Tier) {
    match tier
    case Main => |s.tiers.permanents| < l.size
    case Overflow => |s.tiers.overflows| < l.overflow
    case Reserve => |s.tiers.reserve| < l.priority
  }

  lemma AddingGood(l: Limits, s: State, i: NodeId, bind: Bytes, tier: Tier)
    requires Good(l, s) && i !in s.tiers.all && Room(l, s, tier)
    ensures Good(l, Adding(s, i, bind, tier))
  {
    var p := Peer(s.next, bind, 1, map[], tier != Main);
    LedgerAdd(s.tiers.all, s.leases, s.closed, s.next, i, p);
    AddedTiered(l, s.tiers, i, p);
  }

  lemma DroppingGood(l: Limits, s: State, i: NodeId)
    requires Good(l, s) && i in s.tiers.all && Unused(s.tiers.all[i])
    ensures Good(l, Dropping(s, i))
  {
    LedgerRemove(s.tiers.all, s.leases, s.closed, s.next, i);
    DroppedTiered(l, s.tiers, i);
  }

  lemma PromotingGood(l: Limits, s: State, i: NodeId)
    requires Good(l, s) && i in s.tiers.overflows && Room(l, s, Main)
    ensures Good(l, Promoting(s, i)) && |Promoting(s, i).tiers.overflows| == |s.tiers.overflows| - 1
  {
    PromotedTiered(l, s.tiers, i);
    assert Placed(s.tiers, i);
    var p := s.tiers.overflows[i].(ephemeral := false);
    assert Balanced(s.tiers.all, s.leases, s.closed, s.next, i);
    assert forall c: nat :: (Uses(p, c) <==> Uses(s.tiers.all[i], c)) && Held(p, c) == Held(s.tiers.all[i], c);
    LedgerUpdate(s.tiers.all, s.leases, s.closed, s.next, i, p, s.leases, s.closed, s.next);
  }

  // -------------------------------------------------------------- acquire

  datatype Granted = Granted(state: State, client: Option<nat>)

  /** The least recently used permanent peer nobody uses. */
  function IdleAmong(lru: seq<NodeId>, permanents: Peers): (victim: Option<NodeId>)
    ensures victim.Some? ==> victim.value in lru && victim.value in permanents && Unused(permanents[victim.value])
    ensures victim.None? ==> forall i :: i in lru && i in permanents ==> !Unused(permanents[i])
  {
    if |lru| == 0 then None
    else if lru[0] in permanents && Unused(permanents[lru[0]]) then Some(lru[0])
    else IdleAmong(lru[1..], permanents)
  }

  function Touching(s: State, i: NodeId): State {
    if i in s.tiers.permanents then s.(tiers := Touched(s.tiers, i)) else s
  }

  /** Lease a peer the pool already has. */
  function Reacquired(s: State, i: NodeId, bind: Bytes, connects: bool): Granted
    requires i in s.tiers.all
  {
    var p := s.tiers.all[i];
    if p.bind == bind then Granted(Touching(Leasing(s, i), i), Some(p.client))
    else if p.retired != map[] then Granted(s, None)
    else if !connects then Granted(Failing(s), None)
    else Granted(Touching(Refreshing(s, i, bind), i), Some(s.next))
  }

  /** Connect to a new peer for a tier. */
  function Created(s: State, i: NodeId, bind: Bytes, tier: Tier, connects: bool): Granted {
    if connects then Granted(Adding(s, i, bind, tier), Some(s.next)) else Granted(Failing(s), None)
  }

  /** One acquisition: a pooled peer, a free slot, an overflow slot, an evicted idle peer's slot, or the reserve. */
  function Acquired(l: Limits, s: State, i: NodeId, bind: Bytes, priority: bool, connects: bool): Granted {
    var victim := IdleAmong(s.tiers.lru, s.tiers.permanents);
    if i in s.tiers.all then Reacquired(s, i, bind, connects)
    else if Room(l, s, Main) then Created(s, i, bind, Main, connects)
    else if Room(l, s, Overflow) then Created(s, i, bind, Overflow, connects)
    else if victim.Some? && victim.value in s.tiers.all then Created(Dropping(s, victim.value), i, bind, Main, connects)
    else if priority && Room(l, s, Reserve) then Created(s, i, bind, Reserve, connects)
    else Granted(s, None)
  }

  /** A granted client is leased once more, on the address asked for; a refusal leaves the leases alone. */
  ghost predicate Grants(l: Limits, s: State, i: NodeId, bind: Bytes, g: Granted) {
    && Good(l, g.state) && s.closed <= g.state.closed
    && (g.client.None? ==> g.state.leases == s.leases)
    && (g.client.Some? ==>
          && g.state.leases == s.leases + multiset{(i, g.client.value)}
          && i in g.state.tiers.all
          && g.state.tiers.all[i].client == g.client.value && g.state.tiers.all[i].bind == bind)
  }

  lemma TouchingGood(l: Limits, s: State, i: NodeId)
    requires Good(l, s)
    ensures Good(l, Touching(s, i)) && Touching(s, i).tiers.all == s.tiers.all
  {
    if i in s.tiers.permanents {
      TouchedTiered(l, s.tiers, i);
    }
  }

  lemma LeasingGrants(l: Limits, s: State, i: NodeId)
    requires Good(l, s) && i in s.tiers.all
    ensures var p := s.tiers.all[i]; Grants(l, s, i, p.bind, Granted(Touching(Leasing(s, i), i), Some(p.client)))
  {
    LeasingGood(l, s, i);
    TouchingGood(l, Leasing(s, i), i);
  }

  lemma RefreshingGrants(l: Limits, s: State, i: NodeId, bind: Bytes)
    requires Good(l, s) && i in s.tiers.all && s.tiers.all[i].retired == map[]
    ensures Grants(l, s, i, bind, Granted(Touching(Refreshing(s, i, bind), i), Some(s.next)))
  {
    RefreshingGood(l, s, i, bind);
    TouchingGood(l, Refreshing(s, i, bind), i);
  }

  lemma FailingGrants(l: Limits, s: State, i: NodeId, bind: Bytes)
    requires Good(l, s)
    ensures Grants(l, s, i, bind, Granted(Failing(s), None))
  {
    FailingGood(l, s);
  }

  lemma ReacquiredGrants(l: Limits, s: State, i: NodeId, bind: Bytes, connects: bool)
    requires Good(l, s) && i in s.tiers.all
    ensures Grants(l, s, i, bind, Reacquired(s, i, bind, connects))
  {
    var p := s.tiers.all[i];
    if p.bind == bind {
      LeasingGrants(l, s, i);
    } else if p.retired == map[] {
      FailingGrants(l, s, i, bind);
      RefreshingGrants(l, s, i, bind);
    }
  }

  lemma CreatedGrants(l: Limits, s: State, i: NodeId, bind: Bytes, tier: Tier, connects: bool)
    requires Good(l, s) && i !in s.tiers.all && Room(l, s, tier)
    ensures Grants(l, s, i, bind, Created(s, i, bind, tier, connects))
  {
    AddingGood(l, s, i, bind, tier);
    FailingGood(l, s);
  }

  lemma PermanentsPooled(l: Limits, s: State)
    requires Good(l, s)
    ensures forall v :: v in s.tiers.permanents ==> v in s.tiers.all && s.tiers.all[v] == s.tiers.permanents[v]
  {
    forall v | v in s.tiers.permanents
      ensures v in s.tiers.all && s.tiers.all[v] == s.tiers.permanents[v]
    {
      assert Placed(s.tiers, v);
    }
  }

  lemma EvictionGrants(l: Limits, s: State, victim: NodeId, i: NodeId, bind: Bytes, connects: bool)
    requires Good(l, s) && i !in s.tiers.all && victim in s.tiers.permanents && Unused(s.tiers.permanents[victim])
    requires victim in s.tiers.all && s.tiers.all[victim] == s.tiers.permanents[victim]
    ensures Grants(l, s, i, bind, Created(Dropping(s, victim), i, bind, Main, connects))
  {
    DroppingGood(l, s, victim);
    Smaller(s.tiers.permanents, victim);
    CreatedGrants(l, Dropping(s, victim), i, bind, Main, connects);
  }

  /** Every way to acquire keeps the pool sound. */
  lemma AcquiredGrants(l: Limits, s: State, i: NodeId, bind: Bytes, priority: bool, connects: bool)
    requires Good(l, s)
    ensures Grants(l, s, i, bind, Acquired(l, s, i, bind, priority, connects))
  {
    PermanentsPooled(l, s);
    var victim := IdleAmong(s.tiers.lru, s.tiers.permanents);
    if i in s.tiers.all {
      ReacquiredGrants(l, s, i, bind, connects);
    } else if Room(l, s, Main) {
      CreatedGrants(l, s, i, bind, Main, connects);
    } else if Room(l, s, Overflow) {
      CreatedGrants(l, s, i, bind, Overflow, connects);
    } else if victim.Some? {
      EvictionGrants(l, s, victim.value, i, bind, connects);
    } else if priority && Room(l, s, Reserve) {
      CreatedGrants(l, s, i, bind, Reserve, connects);
    }
  }

  /** No slot is free, none can be freed, and the reserve does not help. */
  predicate NoSlot(l: Limits, s: State, priority: bool) {
    && |s.tiers.permanents| >= l.size && |s.tiers.overflows| >= l.overflow
    && (forall v :: v in s.tiers.permanents ==> !Unused(s.tiers.permanents[v]))
    && (priority ==> |s.tiers.reserve| >= l.priority)
  }

  /** When an acquisition is refused. */
  predicate Refused(l: Limits, s: State, i: NodeId, bind: Bytes, priority: bool, connects: bool) {
    if i in s.tiers.all then s.tiers.all[i].bind != bind && (s.tiers.all[i].retired != map[] || !connects)
    else !connects || NoSlot(l, s, priority)
  }

  lemma NoIdle(l: Limits, s: State)
    requires Good(l, s)
    ensures IdleAmong(s.tiers.lru, s.tiers.permanents).None? <==> forall v :: v in s.tiers.permanents ==> !Unused(s.tiers.permanents[v])
  {
    forall v | v in s.tiers.permanents
      ensures v in s.tiers.lru
    {
      assert Placed(s.tiers, v);
    }
  }

  /** The pool grants exactly what it can, and connects anew only where it must. */
  lemma AcquiredUnlessRefused(l: Limits, s: State, i: NodeId, bind: Bytes, priority: bool, connects: bool)
    requires Good(l, s)
    ensures var g := Acquired(l, s, i, bind, priority, connects);
            && (g.client.None? <==> Refused(l, s, i, bind, priority, connects))
            && (g.client.Some? ==>
                  g.client.value == if i in s.tiers.all && s.tiers.all[i].bind == bind then s.tiers.all[i].client else s.next)
  {
    PermanentsPooled(l, s);
    NoIdle(l, s);
  }

  /** An idle permanent peer may go to make room: all slots are taken, and no idle one was used less recently. */
  ghost predicate Evictable(l: Limits, s: State, i: NodeId, j: NodeId) {
    && i !in s.tiers.all && |s.tiers.permanents| >= l.size && |s.tiers.overflows| >= l.overflow
    && j in s.tiers.permanents && Unused(s.tiers.permanents[j])
    && forall k :: Before(s.tiers.lru, k, j) ==> k !in s.tiers.permanents || !Unused(s.tiers.permanents[k])
  }

  lemma {:induction false} IdleIsFirst(lru: seq<NodeId>, permanents: Peers, k: NodeId)
    requires Distinct(lru) && IdleAmong(lru, permanents).Some? && Before(lru, k, IdleAmong(lru, permanents).value)
    ensures k !in permanents || !Unused(permanents[k])
    decreases |lru|
  {
    var v := IdleAmong(lru, permanents).value;
    var x, y :| 0 <= x < y < |lru| && lru[x] == k && lru[y] == v;
    if v != lru[0] && x > 0 {
      var rest := lru[1..];
      assert rest[x - 1] == k && rest[y - 1] == v && Before(rest, k, v);
      IdleIsFirst(rest, permanents, k);
    }
  }

  lemma ReacquiredKeeps(s: State, i: NodeId, bind: Bytes, connects: bool, j: NodeId)
    requires i in s.tiers.all && j in s.tiers.all && j != i
    ensures var t := Reacquired(s, i, bind, connects).state; j in t.tiers.all && t.tiers.all[j] == s.tiers.all[j]
  {
    RewrittenAll(s.tiers, i, Leased(s.tiers.all[i]));
    RewrittenAll(s.tiers, i, Refreshed(s.tiers.all[i], s.next, bind));
  }

  lemma CreatedKeeps(s: State, i: NodeId, bind: Bytes, tier: Tier, connects: bool, j: NodeId)
    requires j in s.tiers.all && j != i
    ensures var t := Created(s, i, bind, tier, connects).state; j in t.tiers.all && t.tiers.all[j] == s.tiers.all[j]
  {
  }

  /** Other peers are left as they are, except for one that had to make room. */
  lemma AcquiredKeeps(l: Limits, s: State, i: NodeId, bind: Bytes, priority: bool, connects: bool, j: NodeId)
    requires Good(l, s) && j in s.tiers.all && j != i
    ensures var t := Acquired(l, s, i, bind, priority, connects).state;
            (j in t.tiers.all && t.tiers.all[j] == s.tiers.all[j]) || Evictable(l, s, i, j)
  {
    PermanentsPooled(l, s);
    var victim := IdleAmong(s.tiers.lru, s.tiers.permanents);
    if i in s.tiers.all {
      ReacquiredKeeps(s, i, bind, connects, j);
    } else if Room(l, s, Main) {
      CreatedKeeps(s, i, bind, Main, connects, j);
    } else if Room(l, s, Overflow) {
      CreatedKeeps(s, i, bind, Overflow, connects, j);
    } else if victim == Some(j) {
      forall k | Before(s.tiers.lru, k, j)
        ensures k !in s.tiers.permanents || !Unused(s.tiers.permanents[k])
      {
        IdleIsFirst(s.tiers.lru, s.tiers.permanents, k);
      }
      assert Evictable(l, s, i, j);
    } else if victim.Some? {
      CreatedKeeps(Dropping(s, victim.value), i, bind, Main, connects, j);
    } else if priority && Room(l, s, Reserve) {
      CreatedKeeps(s, i, bind, Reserve, connects, j);
    }
  }

  lemma AcquiredKeepsAll(l: Limits, s: State, i: NodeId, bind: Bytes, priority: bool, connects: bool)
    requires Good(l, s)
    ensures var t := Acquired(l, s, i, bind, priority, connects).state;
            forall j :: j in s.tiers.all && j != i ==> (j in t.tiers.all && t.tiers.all[j] == s.tiers.all[j]) || Evictable(l, s, i, j)
  {
    var t := Acquired(l, s, i, bind, priority, connects).state;
    forall j | j in s.tiers.all && j != i
      ensures (j in t.tiers.all && t.tiers.all[j] == s.tiers.all[j]) || Evictable(l, s, i, j)
    {
      AcquiredKeeps(l, s, i, bind, priority, connects, j);
    }
  }

  /** A new peer gets a permanent slot if one is free or freed, an overflow slot if only that is free, the reserve otherwise. */
  lemma AcquiredPlaces(l: Limits, s: State, i: NodeId, bind: Bytes, priority: bool, connects: bool)
    requires Good(l, s) && i !in s.tiers.all && !Refused(l, s, i, bind, priority, connects)
    ensures var t := Acquired(l, s, i, bind, priority, connects).state.tiers;
            && (i in t.permanents <==>
                  |s.tiers.permanents| < l.size
                  || (|s.tiers.overflows| >= l.overflow && exists v :: v in s.tiers.permanents && Unused(s.tiers.permanents[v])))
            && (i in t.overflows <==> |s.tiers.permanents| >= l.size && |s.tiers.overflows| < l.overflow)
            && (i in t.reserve <==> i !in t.permanents && i !in t.overflows)
  {
    PermanentsPooled(l, s);
    NoIdle(l, s);
    assert Placed(s.tiers, i);
  }

  /** What an acquisition may make of the recency list, evicting `v`. */
  predicate Relisted(lru: seq<NodeId>, after: seq<NodeId>, i: NodeId, v: NodeId) {
    || after == lru || after == lru + [i] || after == Remove(lru, i) + [i]
    || after == Remove(lru, v) || after == Remove(lru, v) + [i]
  }

  lemma ReacquiredRelists(s: State, i: NodeId, bind: Bytes, connects: bool)
    requires i in s.tiers.all
    ensures Relisted(s.tiers.lru, Reacquired(s, i, bind, connects).state.tiers.lru, i, i)
  {
    RewrittenAll(s.tiers, i, Leased(s.tiers.all[i]));
    RewrittenAll(s.tiers, i, Refreshed(s.tiers.all[i], s.next, bind));
  }

  lemma EvictionRelists(s: State, v: NodeId, i: NodeId, bind: Bytes, connects: bool)
    requires v in s.tiers.all && v != i
    ensures var t := Created(Dropping(s, v), i, bind, Main, connects).state.tiers;
            Relisted(s.tiers.lru, t.lru, i, v) && v !in t.permanents
  {
  }

  lemma CreatedRelists(s: State, i: NodeId, bind: Bytes, tier: Tier, connects: bool)
    ensures Relisted(s.tiers.lru, Created(s, i, bind, tier, connects).state.tiers.lru, i, i)
  {
  }

  lemma AcquiredRelists(l: Limits, s: State, i: NodeId, bind: Bytes, priority: bool, connects: bool) returns (v: NodeId)
    requires Good(l, s)
    ensures var t := Acquired(l, s, i, bind, priority, connects).state.tiers;
            Relisted(s.tiers.lru, t.lru, i, v) && (v == i || v !in t.permanents)
  {
    PermanentsPooled(l, s);
    v := i;
    var victim := IdleAmong(s.tiers.lru, s.tiers.permanents);
    if i in s.tiers.all {
      ReacquiredRelists(s, i, bind, connects);
    } else if Room(l, s, Main) {
      CreatedRelists(s, i, bind, Main, connects);
    } else if Room(l, s, Overflow) {
      CreatedRelists(s, i, bind, Overflow, connects);
    } else if victim.Some? {
      v := victim.value;
      EvictionRelists(s, v, i, bind, connects);
    } else if priority && Room(l, s, Reserve) {
      CreatedRelists(s, i, bind, Reserve, connects);
    }
  }

  /** The order of recency of the other peers stays. */
  lemma AcquiredKeepsOrder(l: Limits, s: State, i: NodeId, bind: Bytes, priority: bool, connects: bool, j: NodeId, k: NodeId)
    requires Good(l, s) && j != i && k != i
    ensures var t := Acquired(l, s, i, bind, priority, connects).state.tiers;
            j in t.permanents && k in t.permanents ==> (Before(t.lru, j, k) <==> Before(s.tiers.lru, j, k))
  {
    var t := Acquired(l, s, i, bind, priority, connects).state.tiers;
    var v := AcquiredRelists(l, s, i, bind, priority, connects);
    if j in t.permanents && k in t.permanents {
      RelistedOrder(s.tiers.lru, t.lru, i, v, j, k);
    }
  }

  lemma RelistedOrder(lru: seq<NodeId>, after: seq<NodeId>, i: NodeId, v: NodeId, j: NodeId, k: NodeId)
    requires Relisted(lru, after, i, v) && j != i && k != i && j != v && k != v
    ensures Before(after, j, k) <==> Before(lru, j, k)
  {
    RecencyStays(lru, i, j, k);
    RecencyStays(Remove(lru, v), i, j, k);
    RemoveKeepsOrder(lru, v, j, k);
  }

  lemma RecencyStays(lru: seq<NodeId>, i: NodeId, j: NodeId, k: NodeId)
    requires j != i && k != i
    ensures Before(Remove(lru, i) + [i], j, k) <==> Before(lru, j, k)
    ensures Before(lru + [i], j, k) <==> Before(lru, j, k)
  {
    RemoveKeepsOrder(lru, i, j, k);
    BeforeLast(Remove(lru, i), i, j, k);
    BeforeLast(lru, i, j, k);
  }

  /** A permanent peer that was granted is the most recent one. */
  lemma AcquiredIsRecent(l: Limits, s: State, i: NodeId, bind: Bytes, priority: bool, connects: bool, j: NodeId)
    requires Good(l, s) && !Refused(l, s, i, bind, priority, connects) && j != i
    ensures var t := Acquired(l, s, i, bind, priority, connects).state.tiers;
            i in t.permanents && j in t.permanents ==> Before(t.lru, j, i)
  {
    AcquiredGrants(l, s, i, bind, priority, connects);
    AcquiredUnlessRefused(l, s, i, bind, priority, connects);
    var t := Acquired(l, s, i, bind, priority, connects).state.tiers;
    if i in t.permanents && j in t.permanents {
      assert Placed(t, i) && Placed(t, j) && Placed(s.tiers, i);
      RecencyLast(t.lru, i, j);
    }
  }

  lemma RecencyLast(lru: seq<NodeId>, i: NodeId, j: NodeId)
    requires |lru| > 0 && lru[|lru| - 1] == i && j in lru && j != i
    ensures Before(lru, j, i)
  {
    var x :| 0 <= x < |lru| && lru[x] == j;
    assert lru[x] == j && lru[|lru| - 1] == i;
  }

  // -------------------------------------------------------------- release

  /** One lease less; the last one on a retired client closes it. */
  function Returning(s: State, i: NodeId, c: nat): State
    requires i in s.tiers.all && Uses(s.tiers.all[i], c)
  {
    var p := s.tiers.all[i];
    State(Rewritten(s.tiers, i, Returned(p, c)), s.leases - multiset{(i, c)},
          if c != p.client && p.retired[c] == 1 then s.closed + {c} else s.closed, s.next)
  }

  /** A client given back; the last lease on an ephemeral peer drops it. */
  function Released(s: State, i: NodeId, c: nat): State {
    if i !in s.tiers.all || !Uses(s.tiers.all[i], c) then s
    else if LastLease(s.tiers.all[i], c) then Dropping(Returning(s, i, c), i)
    else Returning(s, i, c)
  }

  /** Nobody will hold the ephemeral peer once this client is given back. */
  predicate LastLease(p: Peer, c: nat)
    requires Uses(p, c)
  {
    p.ephemeral && Unused(Returned(p, c))
  }

  lemma ReturningLedger(l: Limits, s: State, i: NodeId, c: nat)
    requires Good(l, s) && i in s.tiers.all && Uses(s.tiers.all[i], c) && (i, c) in s.leases
    ensures var t := Returning(s, i, c); Ledger(t.tiers.all, t.leases, t.closed, t.next)
  {
    ReturnedBalances(s.tiers.all, s.leases, s.closed, s.next, i, c);
    assert s.closed + {} == s.closed;
  }

  lemma UpdateGone(m: map<NodeId, Peer>, i: NodeId, p: Peer)
    ensures m[i := p] - {i} == m - {i}
  {
  }

  lemma DropAfterRewrite(t: Tiers, i: NodeId, p: Peer)
    ensures Dropped(Rewritten(t, i, p), i) == Dropped(t, i)
  {
    UpdateGone(t.all, i, p);
    UpdateGone(t.permanents, i, p);
    UpdateGone(t.overflows, i, p);
    UpdateGone(t.reserve, i, p);
  }

  lemma LastReturned(l: Limits, s: State, t: State, i: NodeId, p: Peer)
    requires Tiered(l, s.tiers) && t.tiers == Rewritten(s.tiers, i, p) && Unused(p)
    requires Ledger(t.tiers.all, t.leases, t.closed, t.next)
    ensures Good(l, Dropping(t, i))
  {
    LedgerRemove(t.tiers.all, t.leases, t.closed, t.next, i);
    DroppedTiered(l, s.tiers, i);
    DropAfterRewrite(s.tiers, i, p);
  }

  /** Giving back what is held, or what the pool no longer knows, keeps the pool sound. */
  lemma ReleasedGood(l: Limits, s: State, i: NodeId, c: nat)
    requires Good(l, s) && ((i, c) in s.leases || i !in s.tiers.all || !Uses(s.tiers.all[i], c))
    ensures Good(l, Released(s, i, c))
  {
    if i in s.tiers.all && Uses(s.tiers.all[i], c) {
      ReturningLedger(l, s, i, c);
      if LastLease(s.tiers.all[i], c) {
        LastReturned(l, s, Returning(s, i, c), i, Returned(s.tiers.all[i], c));
      } else {
        RewrittenAll(s.tiers, i, Returned(s.tiers.all[i], c));
        RewrittenGood(l, s, Returning(s, i, c), i, Returned(s.tiers.all[i], c));
      }
    }
  }

  lemma ReleasedLeases(l: Limits, s: State, i: NodeId, c: nat)
    requires Good(l, s)
    ensures Released(s, i, c).leases == s.leases - multiset{(i, c)} && s.closed <= Released(s, i, c).closed
  {
    if i !in s.tiers.all || !Uses(s.tiers.all[i], c) {
      assert Balanced(s.tiers.all, s.leases, s.closed, s.next, i);
      assert s.leases[(i, c)] == 0;
    }
  }

  /** A held client closes exactly with its last lease, unless the pool keeps its peer. */
  lemma ReleasedCloses(l: Limits, s: State, i: NodeId, c: nat)
    requires Good(l, s) && (i, c) in s.leases
    ensures i in s.tiers.all && Uses(s.tiers.all[i], c) && s.leases[(i, c)] == Held(s.tiers.all[i], c)
    ensures var p := s.tiers.all[i];
            c in Released(s, i, c).closed <==>
            s.leases[(i, c)] == 1 && (c != p.client || (p.ephemeral && p.retired == map[]))
  {
    LeasedStaysOpen(s.tiers.all, s.leases, s.closed, s.next, i, c);
    assert Balanced(s.tiers.all, s.leases, s.closed, s.next, i);
    var p := s.tiers.all[i];
    RewrittenAll(s.tiers, i, Returned(p, c));
    var t := Returning(s, i, c);
    assert t.tiers.all[i].client == p.client;
    assert c in t.closed <==> c != p.client && p.retired[c] == 1;
  }

  /** Only the peer given back changes. */
  lemma ReleasedKeeps(s: State, i: NodeId, c: nat, j: NodeId)
    requires j != i
    ensures j in Released(s, i, c).tiers.all <==> j in s.tiers.all
    ensures j in s.tiers.all ==> Released(s, i, c).tiers.all[j] == s.tiers.all[j]
  {
    if i in s.tiers.all && Uses(s.tiers.all[i], c) {
      RewrittenAll(s.tiers, i, Returned(s.tiers.all[i], c));
    }
  }

  /** It leaves the pool exactly if it was ephemeral and this was its last lease. */
  lemma ReleasedDrops(s: State, i: NodeId, c: nat)
    requires i in s.tiers.all && Uses(s.tiers.all[i], c)
    ensures var p := s.tiers.all[i];
            i !in Released(s, i, c).tiers.all <==>
            && p.ephemeral
            && if c == p.client then p.refcount == 1 && p.retired == map[] else p.refcount == 0 && p.retired == map[c := 1]
  {
    var p := s.tiers.all[i];
    RewrittenAll(s.tiers, i, Returned(p, c));
    assert i in Released(s, i, c).tiers.all <==> !LastLease(p, c);
    if c != p.client {
      if p.retired[c] == 1 {
        assert p.retired - {c} == map[] <==> p.retired == map[c := 1];
      } else {
        assert c in Returned(p, c).retired;
        assert p.retired != map[c := 1];
      }
    }
  }

  // --------------------------------------------------------------- expiry

  /** Idle permanent peers dropped one after the other. */
  function Expiring(s: State, ids: seq<NodeId>): State {
    if |ids| == 0 then s
    else
      var t, i := Expiring(s, ids[..|ids| - 1]), ids[|ids| - 1];
      if i in t.tiers.all then Dropping(t, i) else t
  }

  function Ids(ids: seq<NodeId>): set<NodeId> {
    set i | i in ids
  }

  lemma IdsLast(ids: seq<NodeId>)
    requires |ids| > 0
    ensures Ids(ids) == Ids(ids[..|ids| - 1]) + {ids[|ids| - 1]}
  {
    assert ids == ids[..|ids| - 1] + [ids[|ids| - 1]];
  }

  /** The peers named, and no others, leave the pool. */
  lemma {:induction false} ExpiringTakes(s: State, ids: seq<NodeId>)
    requires forall i :: i in ids ==> i in s.tiers.all
    ensures var t := Expiring(s, ids);
            && t.tiers.all == s.tiers.all - Ids(ids) && t.tiers.permanents == s.tiers.permanents - Ids(ids)
            && t.leases == s.leases && s.closed <= t.closed
  {
    if |ids| > 0 {
      ExpiringTakes(s, ids[..|ids| - 1]);
      IdsLast(ids);
    }
  }

  /** Dropping permanent peers leaves the other tiers alone. */
  lemma {:induction false} ExpiringSpares(l: Limits, s: State, ids: seq<NodeId>)
    requires Good(l, s) && forall i :: i in ids ==> i in s.tiers.permanents
    ensures Expiring(s, ids).tiers.overflows == s.tiers.overflows && Expiring(s, ids).tiers.reserve == s.tiers.reserve
  {
    if |ids| > 0 {
      var last := ids[|ids| - 1];
      ExpiringSpares(l, s, ids[..|ids| - 1]);
      assert Placed(s.tiers, last);
      assert s.tiers.overflows - {last} == s.tiers.overflows && s.tiers.reserve - {last} == s.tiers.reserve;
    }
  }

  lemma {:induction false} ExpiringGood(l: Limits, s: State, ids: seq<NodeId>)
    requires Good(l, s) && forall i :: i in ids ==> i in s.tiers.all && Unused(s.tiers.all[i])
    ensures Good(l, Expiring(s, ids))
  {
    if |ids| > 0 {
      var init, last := ids[..|ids| - 1], ids[|ids| - 1];
      ExpiringGood(l, s, init);
      ExpiringTakes(s, init);
      var t := Expiring(s, init);
      if last in t.tiers.all {
        DroppingGood(l, t, last);
      }
    }
  }

  // ----------------------------------------------------------------- runs

  /** What callers and the reaper do to the pool. */
  datatype Action =
    | Acquire(peer: NodeId, bind: Bytes, priority: bool, connects: bool)
    | Release(peer: NodeId, client: nat)
    | Expire(peer: NodeId)
    | Promote(peer: NodeId)

  /** Callers give back what they hold; the reaper takes what nobody uses and promotes into a free slot. */
  predicate Allowed(l: Limits, s: State, a: Action) {
    match a
    case Acquire(_, _, _, _) => true
    case Release(i, c) => (i, c) in s.leases || i !in s.tiers.all || !Uses(s.tiers.all[i], c)
    case Expire(i) => i in s.tiers.all && Unused(s.tiers.all[i])
    case Promote(i) => i in s.tiers.overflows && Room(l, s, Main)
  }

  ghost predicate Steps(l: Limits, s: State, a: Action, s': State) {
    Allowed(l, s, a) &&
    match a
    case Acquire(i, bind, priority, connects) => s' == Acquired(l, s, i, bind, priority, connects).state
    case Release(i, c) => s' == Released(s, i, c)
    case Expire(i) => s' == Dropping(s, i)
    case Promote(i) => s' == Promoting(s, i)
  }

  lemma StepKeepsGood(l: Limits, s: State, a: Action, s': State)
    requires Good(l, s) && Steps(l, s, a, s')
    ensures Good(l, s') && s.closed <= s'.closed
  {
    match a
    case Acquire(i, bind, priority, connects) =>
      AcquiredGrants(l, s, i, bind, priority, connects);
    case Release(i, c) =>
      ReleasedGood(l, s, i, c);
      ReleasedLeases(l, s, i, c);
    case Expire(i) =>
      DroppingGood(l, s, i);
    case Promote(i) =>
      PromotingGood(l, s, i);
  }

  const EMPTY := State(Tiers(map[], map[], map[], map[], []), multiset{}, {}, 0)

  ghost predicate IsRun(l: Limits, run: seq<State>, actions: seq<Action>) {
    && |run| == |actions| + 1 && run[0] == EMPTY
    && forall x :: 0 <= x < |actions| ==> Steps(l, run[x], actions[x], run[x + 1])
  }

  lemma {:induction false} EveryRunIsGood(l: Limits, run: seq<State>, actions: seq<Action>, x: nat)
    requires IsRun(l, run, actions) && x < |run|
    ensures Good(l, run[x])
  {
    if x == 0 {
      EmptyGood(l);
    } else {
      EveryRunIsGood(l, run, actions, x - 1);
      StepKeepsGood(l, run[x - 1], actions[x - 1], run[x]);
    }
  }

  /** In every state of every run the tiers are bounded and disjoint, no leased client is closed and none leaks. */
  lemma EveryRunIsSafe(l: Limits, run: seq<State>, actions: seq<Action>, x: nat)
    requires IsRun(l, run, actions) && x < |run|
    ensures Good(l, run[x])
    ensures forall i, c :: (i, c) in run[x].leases ==> c !in run[x].closed
    ensures forall c: nat :: c < run[x].next && c !in run[x].closed ==> exists i :: i in run[x].tiers.all && Uses(run[x].tiers.all[i], c)
  {
    EveryRunIsGood(l, run, actions, x);
    var s := run[x];
    forall i, c | (i, c) in s.leases
      ensures c !in s.closed
    {
      LeasedStaysOpen(s.tiers.all, s.leases, s.closed, s.next, i, c);
    }
    forall c: nat | c < s.next && c !in s.closed
      ensures exists i :: i in s.tiers.all && Uses(s.tiers.all[i], c)
    {
      assert Traced(s.tiers.all, s.closed, c);
    }
  }

  lemma EmptyGood(l: Limits)
    ensures Good(l, EMPTY)
  {
  }

  // ---------------------------------------------------------------- class

  class PeerPool {
    const limits: Limits
    var permanents: Peers
    var overflows: Peers
    var reserve: Peers
    var lru: seq<NodeId>
    var next: nat
    ghost var all: Peers
    ghost var leases: Leases
    ghost var closed: set<nat>

    ghost function Now(): State
      reads this
    {
      State(Tiers(all, permanents, overflows, reserve, lru), leases, closed, next)
    }

    ghost predicate Valid()
      reads this
    {
      Good(limits, Now())
    }

    constructor (limits: Limits)
      ensures Valid() && Now() == EMPTY && this.limits == limits
    {
      this.limits := limits;
      permanents, overflows, reserve, lru, next := map[], map[], map[], [], 0;
      all, leases, closed := map[], multiset{}, {};
      new;
      EmptyGood(limits);
    }

    function Find(i: NodeId): Option<Peer>
      reads this
    {
      if i in permanents then Some(permanents[i])
      else if i in overflows then Some(overflows[i])
      else if i in reserve then Some(reserve[i])
      else None
    }

    lemma Found(i: NodeId)
      requires Tiered(limits, Now().tiers)
      ensures Find(i) == if i in all then Some(all[i]) else None
    {
      assert Placed(Now().tiers, i);
    }

    /** Write a pooled peer back into the tier it lives in. */
    method Store(i: NodeId, p: Peer)
      modifies this`permanents, this`overflows, this`reserve, this`all
      ensures Now() == old(Now()).(tiers := Rewritten(old(Now()).tiers, i, p))
    {
      if i in permanents {
        permanents := permanents[i := p];
      } else if i in overflows {
        overflows := overflows[i := p];
      } else {
        reserve := reserve[i := p];
      }
      all := all[i := p];
    }

    /** Take a pooled peer out of its tier and close its client. */
    method Drop(i: NodeId)
      requires i in all
      modifies this`permanents, this`overflows, this`reserve, this`lru, this`all, this`closed
      ensures Now() == Dropping(old(Now()), i)
    {
      closed := closed + {all[i].client};
      permanents, overflows, reserve := permanents - {i}, overflows - {i}, reserve - {i};
      lru, all := Remove(lru, i), all - {i};
    }

    method Touch(i: NodeId)
      modifies this`lru
      ensures Now() == Touching(old(Now()), i)
    {
      if i in permanents {
        lru := Remove(lru, i) + [i];
      }
    }

    /** Put a pooled peer on a new client of its new address. */
    method Refresh(i: NodeId, p: Peer, bind: Bytes)
      requires i in all && all[i] == p
      modifies this`permanents, this`overflows, this`reserve, this`all, this`next, this`leases, this`closed
      ensures Now() == Refreshing(old(Now()), i, bind)
    {
      Store(i, Refreshed(p, next, bind));
      if p.refcount == 0 {
        closed := closed + {p.client};
      }
      leases, next := leases + multiset{(i, next)}, next + 1;
    }

    /** Lease a pooled peer, on a new client when its address moved. */
    method Reacquire(i: NodeId, p: Peer, bind: Bytes, connects: bool) returns (client: Option<nat>)
      requires i in all && all[i] == p
      modifies this
      ensures Granted(Now(), client) == Reacquired(old(Now()), i, bind, connects)
    {
      if p.bind == bind {
        leases := leases + multiset{(i, p.client)};
        Store(i, Leased(p));
        client := Some(p.client);
      } else if p.retired != map[] {
        return None;
      } else if !connects {
        next, closed := next + 1, closed + {next};
        return None;
      } else {
        client := Some(next);
        Refresh(i, p, bind);
      }
      Touch(i);
    }

    /** Connect to a new peer; a failed connection is closed at once. */
    method Create(i: NodeId, bind: Bytes, tier: Tier, connects: bool) returns (client: Option<nat>)
      modifies this
      ensures Granted(Now(), client) == Created(old(Now()), i, bind, tier, connects)
    {
      var id := next;
      next := next + 1;
      if !connects {
        closed := closed + {id};
        return None;
      }
      var peer := Peer(id, bind, 1, map[], tier != Main);
      match tier {
        case Main =>
          permanents, lru := permanents[i := peer], lru + [i];
        case Overflow =>
          overflows := overflows[i := peer];
        case Reserve =>
          reserve := reserve[i := peer];
      }
      all, leases := all[i := peer], leases + multiset{(i, id)};
      return Some(id);
    }

    predicate IdleAt(x: nat)
      requires x < |lru|
      reads this
    {
      lru[x] in permanents && Unused(permanents[lru[x]])
    }

    /** The first idle peer in recency order, the least recent first. */
    method IdleLru() returns (victim: Option<NodeId>)
      ensures victim == IdleAmong(lru, permanents)
      ensures victim.Some? ==>
        exists x :: 0 <= x < |lru| && lru[x] == victim.value && IdleAt(x) && forall y :: 0 <= y < x ==> !IdleAt(y)
    {
      for x := 0 to |lru|
        invariant IdleAmong(lru, permanents) == IdleAmong(lru[x..], permanents)
        invariant forall y :: 0 <= y < x ==> !IdleAt(y)
      {
        if lru[x] in permanents && Unused(permanents[lru[x]]) {
          assert IdleAt(x);
          return Some(lru[x]);
        }
        assert lru[x..][1..] == lru[x + 1..];
      }
      return None;
    }

    method AcquireLocked(i: NodeId, bind: Bytes, priority: bool, connects: bool) returns (client: Option<nat>)
      requires Tiered(limits, Now().tiers) && forall v :: v in permanents ==> v in all
      modifies this
      ensures Granted(Now(), client) == Acquired(limits, old(Now()), i, bind, priority, connects)
    {
      Found(i);
      var peer := Find(i);
      if peer.Some? {
        client := Reacquire(i, peer.value, bind, connects);
      } else if |permanents| < limits.size {
        client := Create(i, bind, Main, connects);
      } else if |overflows| < limits.overflow {
        client := Create(i, bind, Overflow, connects);
      } else {
        var victim := IdleLru();
        if victim.Some? {
          Drop(victim.value);
          client := Create(i, bind, Main, connects);
        } else if priority && |reserve| < limits.priority {
          client := Create(i, bind, Reserve, connects);
        } else {
          client := None;
        }
      }
    }

    /** Lease a client of a peer; an unknown peer has no address. */
    method Acquire(i: NodeId, bind: Option<Bytes>, priority: bool, connects: bool) returns (client: Option<nat>)
      requires Valid()
      modifies this
      ensures Valid() && old(closed) <= closed
      ensures bind.None? ==> client.None? && Now() == old(Now())
      ensures bind.Some? ==> Grants(limits, old(Now()), i, bind.value, Granted(Now(), client))
      ensures bind.Some? ==> (client.None? <==> Refused(limits, old(Now()), i, bind.value, priority, connects))
      ensures bind.Some? ==> forall j :: j in old(all) && j != i ==>
                (j in all && all[j] == old(all)[j]) || Evictable(limits, old(Now()), i, j)
    {
      if bind.None? {
        return None;
      }
      AcquiredGrants(limits, Now(), i, bind.value, priority, connects);
      AcquiredUnlessRefused(limits, Now(), i, bind.value, priority, connects);
      AcquiredKeepsAll(limits, Now(), i, bind.value, priority, connects);
      PermanentsPooled(limits, Now());
      client := AcquireLocked(i, bind.value, priority, connects);
    }

    /** Count one lease less; the last one on a retired client closes it. */
    method GiveBack(i: NodeId, p: Peer, c: nat)
      requires i in all && all[i] == p && Uses(p, c)
      modifies this`permanents, this`overflows, this`reserve, this`all, this`leases, this`closed
      ensures Now() == Returning(old(Now()), i, c)
    {
      if c == p.client {
        Store(i, p.(refcount := p.refcount - 1));
      } else if p.retired[c] == 1 {
        Store(i, p.(retired := p.retired - {c}));
        closed := closed + {c};
      } else {
        Store(i, p.(retired := p.retired[c := p.retired[c] - 1]));
      }
      leases := leases - multiset{(i, c)};
    }

    method ReleaseLocked(i: NodeId, c: nat)
      requires Tiered(limits, Now().tiers)
      modifies this
      ensures Now() == Released(old(Now()), i, c)
    {
      Found(i);
      var peer := Find(i);
      if peer.None? || !Uses(peer.value, c) {
        return;
      }
      GiveBack(i, peer.value, c);
      if LastLease(peer.value, c) {
        Drop(i);
      }
    }

    /** Give a client back. */
    method Release(i: NodeId, c: nat)
      requires Valid() && ((i, c) in leases || i !in all || !Uses(all[i], c))
      modifies this
      ensures Valid() && old(closed) <= closed && leases == old(leases) - multiset{(i, c)}
      ensures (i, c) in old(leases) ==> i in old(all) && Uses(old(all)[i], c)
      ensures (i, c) in old(leases) ==>
        (c in closed <==> (i, c) !in leases && (c != old(all)[i].client || (old(all)[i].ephemeral && old(all)[i].retired == map[])))
      ensures forall j :: j != i ==> (j in all <==> j in old(all)) && (j in all ==> all[j] == old(all)[j])
    {
      ReleasedGood(limits, Now(), i, c);
      ReleasedLeases(limits, Now(), i, c);
      forall j | j != i
        ensures (j in Released(Now(), i, c).tiers.all <==> j in all) && (j in all ==> Released(Now(), i, c).tiers.all[j] == all[j])
      {
        ReleasedKeeps(Now(), i, c, j);
      }
      if (i, c) in leases {
        ReleasedCloses(limits, Now(), i, c);
      }
      ReleaseLocked(i, c);
    }

    method ExpireAll(expired: seq<NodeId>)
      requires Distinct(expired) && forall i :: i in expired ==> i in all
      modifies this`permanents, this`overflows, this`reserve, this`lru, this`all, this`closed
      ensures Now() == Expiring(old(Now()), expired)
    {
      ghost var before := Now();
      for x := 0 to |expired|
        invariant Now() == Expiring(before, expired[..x])
      {
        assert expired[..x + 1][..x] == expired[..x];
        ExpiringTakes(before, expired[..x]);
        assert expired[x] !in Ids(expired[..x]);
        Drop(expired[x]);
      }
      assert expired[..|expired|] == expired;
    }

    /** Permanent peers nobody has used for a while. */
    method Expired(stale: NodeId -> bool) returns (expired: seq<NodeId>)
      ensures Distinct(expired)
      ensures forall i :: i in expired <==> i in permanents && Unused(permanents[i]) && stale(i)
    {
      expired := [];
      var rest := permanents.Keys;
      while rest != {}
        invariant rest <= permanents.Keys && Distinct(expired)
        invariant forall i :: i in expired <==> i in permanents && i !in rest && Unused(permanents[i]) && stale(i)
      {
        var i :| i in rest;
        rest := rest - {i};
        if Unused(permanents[i]) && stale(i) {
          expired := expired + [i];
        }
      }
    }

    /** Close idle permanent peers, unless the pool is small already. */
    method RemoveExpired(minimum: nat, stale: NodeId -> bool)
      requires Valid()
      modifies this
      ensures Valid() && leases == old(leases) && old(closed) <= closed
      ensures |old(permanents)| <= minimum ==> Now() == old(Now())
      ensures |old(permanents)| > minimum ==>
        permanents == old(permanents) - (set i | i in old(permanents) && Unused(old(permanents)[i]) && stale(i))
      ensures overflows == old(overflows) && reserve == old(reserve)
    {
      if |permanents| > minimum {
        var expired := Expired(stale);
        PermanentsPooled(limits, Now());
        ExpiringGood(limits, Now(), expired);
        ExpiringTakes(Now(), expired);
        ExpiringSpares(limits, Now(), expired);
        assert Ids(expired) == set i | i in permanents && Unused(permanents[i]) && stale(i);
        ExpireAll(expired);
      }
    }

    /** Move overflow peers into free permanent slots, the least inactive first. */
    method TryPromote(inactivity: NodeId -> real)
      requires Valid()
      modifies this`permanents, this`overflows, this`lru, this`all
      ensures Valid() && (|permanents| >= limits.size || |overflows| == 0)
      ensures old(permanents.Keys) <= permanents.Keys && overflows.Keys <= old(overflows.Keys)
      ensures permanents.Keys + overflows.Keys == old(permanents.Keys + overflows.Keys)
      ensures forall i, j :: i in permanents && i !in old(permanents) && j in overflows ==> inactivity(i) <= inactivity(j)
    {
      while |permanents| < limits.size && |overflows| > 0
        invariant Valid()
        invariant old(permanents.Keys) <= permanents.Keys && overflows.Keys <= old(overflows.Keys)
        invariant permanents.Keys + overflows.Keys == old(permanents.Keys + overflows.Keys)
        invariant forall i, j :: i in permanents && i !in old(permanents) && j in overflows ==> inactivity(i) <= inactivity(j)
        decreases |overflows|
      {
        var i := LeastInactive(overflows.Keys, inactivity);
        PromoteOne(i);
      }
    }

    method PromoteOne(i: NodeId)
      requires Valid() && i in overflows && |permanents| < limits.size
      modifies this`permanents, this`overflows, this`lru, this`all
      ensures Valid() && permanents.Keys == old(permanents.Keys) + {i} && overflows.Keys == old(overflows.Keys) - {i}
      ensures |overflows| == |old(overflows)| - 1
    {
      PromotingGood(limits, Now(), i);
      var p := overflows[i].(ephemeral := false);
      permanents, overflows := permanents[i := p], overflows - {i};
      lru, all := lru + [i], all[i := p];
    }
  }

  method LeastInactive(ids: set<NodeId>, inactivity: NodeId -> real) returns (least: NodeId)
    requires ids != {}
    ensures least in ids && forall i :: i in ids ==> inactivity(least) <= inactivity(i)
  {
    least :| least in ids;
    var rest := ids - {least};
    while rest != {}
      invariant rest <= ids && least in ids && forall i :: i in ids - rest ==> inactivity(least) <= inactivity(i)
    {
      var i :| i in rest;
      if inactivity(i) < inactivity(least) {
        least := i;
      }
      rest := rest - {i};
    }
  }
}
