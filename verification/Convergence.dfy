/**
Several replicas of a partition over time: anti-entropy sessions between any two of them, in any
order, finished or not, with writes and collections in between. What one replica holds reaches
every replica that a chain of finished sessions leads to.
*/
module Convergence {
  import opened Codec
  import opened Scan
  import opened Versions
  import opened Session
  import opened Retention
  import opened Replicas

  /** A session between two replicas, which ended normally or was cut short; or an operation of one. */
  datatype Event = Meeting(a: nat, b: nat, mode: Mode, done: bool) | Local(a: nat, op: StoreOp)

  ghost predicate Step(c: Config, s: seq<Store>, e: Event, t: seq<Store>)
    requires Sound(c)
  {
    && |t| == |s|
    && match e {
         case Meeting(a, b, m, done) =>
           && a < |s| && b < |s| && a != b && m.config == c && m.pushable && m.pullable
           && t == s[a := t[a]][b := t[b]]
           && Grows(Pair(s[a], s[b]), Pair(t[a], t[b]), m)
           && (done ==> AllSettled(Pair(t[a], t[b]), m) && Excused(Pair(t[a], t[b]), m))
         case Local(a, op) =>
           a < |s| && t == s[a := Operate(s[a], c.layout, c.versions, op)]
       }
  }

  /** A session between two replicas, as the session's contract has it, is such a step and touches no other replica. */
  lemma SessionIsMeeting(c: Config, s: seq<Store>, a: nat, b: nat, m: Mode, q: Pair, done: bool)
    requires Sound(c) && a < |s| && b < |s| && a != b && m.config == c && m.pushable && m.pullable
    requires Grows(Pair(s[a], s[b]), q, m) && (done ==> AllSettled(q, m) && Excused(q, m))
    ensures Step(c, s, Meeting(a, b, m, done), s[a := q.local][b := q.remote])
  {
  }

  /** The replica stores the version, or is past it. */
  ghost predicate Has(s: Store, c: Config, k: Key) {
    k in s || Superseded(s, c.layout, c.versions, k)
  }

  // ------------------------------------------------------------- one step

  /** Whoever is past a version that is newer is past it too. */
  lemma SupersededBelow(s: Store, o: Layout, n: nat, j: Key, k: Key)
    requires Superseded(s, o, n, j) && PlaceOf(j) == PlaceOf(k) && o.hlc(j) > o.hlc(k)
    ensures Superseded(s, o, n, k)
  {
    SubsetSize(NewerThan(s, o, j), NewerThan(s, o, k));
  }

  /** Collection does not bring a replica back before a version. */
  lemma CollectHas(s: Store, c: Config, keys: set<Key>, k: Key)
    requires Sound(c) && Has(s, c, k)
    ensures Has(Collect(s, c.layout, c.versions, keys), c, k)
  {
    var o, n := c.layout, c.versions;
    var t := Collect(s, o, n, keys);
    if k in s {
      if k !in t {
        CollectIsSafe(s, o, n, keys, k);
      }
    } else if j :| j in NewerThan(s, o, k) && j !in t {
      CollectIsSafe(s, o, n, keys, j);
      SupersededBelow(t, o, n, j, k);
    } else {
      SubsetSize(NewerThan(s, o, k), NewerThan(t, o, k));
    }
  }

  lemma ExtendsHas(s: Store, t: Store, c: Config, k: Key)
    requires Extends(s, t) && Has(s, c, k)
    ensures Has(t, c, k)
  {
    if k !in s {
      SupersededStays(s, t, c.layout, c.versions, k);
    }
  }

  lemma OperateHas(s: Store, c: Config, op: StoreOp, k: Key)
    requires Sound(c) && Has(s, c, k)
    ensures Has(Operate(s, c.layout, c.versions, op), c, k)
  {
    match op
    case Put(r) =>
      ExtendsHas(s, Insert(s, r), c, k);
    case Absorb(rs) =>
      ApplySettles(s, c.layout, c.versions, rs);
      ExtendsHas(s, Apply(s, c.layout, c.versions, rs), c, k);
    case Gc(keys) =>
      CollectHas(s, c, keys, k);
  }

  /** No step makes a replica lose a version without being past it. */
  lemma StepHas(c: Config, s: seq<Store>, e: Event, t: seq<Store>, i: nat, k: Key)
    requires Sound(c) && Step(c, s, e, t) && i < |s| && Has(s[i], c, k)
    ensures Has(t[i], c, k)
  {
    match e
    case Meeting(a, b, m, _) =>
      if i == a || i == b {
        ExtendsHas(s[i], t[i], c, k);
      }
    case Local(a, op) =>
      if i == a {
        OperateHas(s[i], c, op, k);
      }
  }

  // ------------------------------------------------------------- meetings

  /** The session could compare every version of the address, and misjudged none of their buckets. */
  ghost predicate Clear(p: Pair, q: Pair, m: Mode, k: Key)
    requires m.config.width > 0
  {
    forall j :: j in p.local.Keys + p.remote.Keys && PlaceOf(j) == PlaceOf(k) ==> Comparable(p, q, m, j)
  }

  ghost predicate Comparable(p: Pair, q: Pair, m: Mode, j: Key)
    requires m.config.width > 0
  {
    && (j in p.local ==> Owned(p.local, j)) && (j in p.remote ==> Owned(p.remote, j))
    && j.ts.wall <= m.cutoff && !Misjudged(q, m, BucketOfKey(m, j))
  }

  /** A version one side stores and owns is owned by the other afterwards, or the other is past it. */
  lemma OwnedCrosses(p: Pair, q: Pair, m: Mode, k: Key)
    requires m.config.width > 0 && m.pushable && m.pullable && k.pid == m.pid
    requires Grows(p, q, m) && AllSettled(q, m) && Excused(q, m) && Comparable(p, q, m, k)
    ensures k in p.local ==> Owned(q.remote, k) || Superseded(q.remote, m.config.layout, m.config.versions, k)
    ensures k in p.remote ==> Owned(q.local, k) || Superseded(q.local, m.config.layout, m.config.versions, k)
  {
    SessionMeaning(p, q, m, k);
  }

  /** Enough newer versions, each carried over, put the other side past the version too. */
  lemma NewerCross(from: Store, to: Store, o: Layout, n: nat, k: Key)
    requires Superseded(from, o, n, k)
    requires forall j :: j in NewerThan(from, o, k) ==> Owned(to, j) || Superseded(to, o, n, j)
    ensures Superseded(to, o, n, k)
  {
    if j :| j in NewerThan(from, o, k) && Superseded(to, o, n, j) {
      SupersededBelow(to, o, n, j, k);
    } else {
      SubsetSize(NewerThan(from, o, k), NewerThan(to, o, k));
    }
  }

  /** A finished session leaves both sides with what either had, or past it. */
  lemma MeetingHas(p: Pair, q: Pair, m: Mode, k: Key)
    requires m.config.width > 0 && m.pushable && m.pullable && k.pid == m.pid
    requires Grows(p, q, m) && AllSettled(q, m) && Excused(q, m) && Clear(p, q, m, k)
    requires Has(p.local, m.config, k) || Has(p.remote, m.config, k)
    ensures Has(q.local, m.config, k) && Has(q.remote, m.config, k)
  {
    var o, n := m.config.layout, m.config.versions;
    forall j | j in p.local.Keys + p.remote.Keys && PlaceOf(j) == PlaceOf(k)
      ensures j in p.local ==> Owned(q.remote, j) || Superseded(q.remote, o, n, j)
      ensures j in p.remote ==> Owned(q.local, j) || Superseded(q.local, o, n, j)
    {
      OwnedCrosses(p, q, m, j);
    }
    if Has(p.local, m.config, k) {
      ExtendsHas(p.local, q.local, m.config, k);
      if k !in p.local {
        NewerCross(p.local, q.remote, o, n, k);
      }
    } else {
      ExtendsHas(p.remote, q.remote, m.config, k);
      if k !in p.remote {
        NewerCross(p.remote, q.local, o, n, k);
      }
    }
  }

  /**
  That the session can compare the whole address is needed: a side may be past a version because of
  a newer one that is past the cutoff, and the session then carries over neither.
  */
  lemma RecentHides(m: Mode, j: Key, e: Entry, k: Key)
    requires m.config.width > 0 && m.config.versions == 1 && m.blind == {}
    requires PlaceOf(j) == PlaceOf(k) && m.config.layout.hlc(j) > m.config.layout.hlc(k)
    requires OwnedTag(e.tag) && j.ts.wall > m.cutoff
    ensures var p := Pair(map[j := e], map[]);
            && Grows(p, p, m) && AllSettled(p, m) && Excused(p, m)
            && Has(p.local, m.config, k) && !Has(p.remote, m.config, k)
  {
    var p, o := Pair(map[j := e], map[]), m.config.layout;
    assert NewerThan(p.local, o, k) == {j} && NewerThan(p.remote, o, k) == {};
  }

  // ----------------------------------------------------------------- runs

  /** The replicas' stores at the start, and after each event. */
  datatype History = Start(stores: seq<Store>) | Then(before: History, event: Event, stores: seq<Store>)

  ghost predicate Run(c: Config, h: History)
    requires Sound(c)
  {
    h.Then? ==> Run(c, h.before) && Step(c, h.before.stores, h.event, h.stores)
  }

  /** The last event was a finished session of the version's partition that could compare its address. */
  ghost predicate Conclusive(c: Config, h: History, k: Key)
    requires Sound(c) && h.Then? && Step(c, h.before.stores, h.event, h.stores)
  {
    match h.event
    case Meeting(a, b, m, done) =>
      && done && m.pid == k.pid
      && Clear(Pair(h.before.stores[a], h.before.stores[b]), Pair(h.stores[a], h.stores[b]), m, k)
    case Local(_, _) => false
  }

  /** Replicas that a chain of conclusive sessions leads to from replica `a`. */
  ghost function Informed(c: Config, h: History, k: Key, a: nat): set<nat>
    requires Sound(c) && Run(c, h)
  {
    match h
    case Start(_) => {a}
    case Then(before, e, _) =>
      var told := Informed(c, before, k, a);
      if Conclusive(c, h, k) && (e.a in told || e.b in told) then told + {e.a, e.b} else told
  }

  /** Every replica a version's news has reached stores it, or is past it, whatever else happened. */
  lemma {:induction false} NewsSpreads(c: Config, h: History, k: Key, a: nat, b: nat)
    requires Sound(c) && Run(c, h) && a < |Initially(h)| && Has(Initially(h)[a], c, k)
    requires b in Informed(c, h, k, a)
    ensures b < |h.stores| && Has(h.stores[b], c, k)
    decreases h
  {
    if h.Then? {
      var e, s, t := h.event, h.before.stores, h.stores;
      var told := Informed(c, h.before, k, a);
      if b in told {
        NewsSpreads(c, h.before, k, a, b);
        StepHas(c, s, e, t, b, k);
      } else {
        NewsSpreads(c, h.before, k, a, if e.a in told then e.a else e.b);
        MeetingHas(Pair(s[e.a], s[e.b]), Pair(t[e.a], t[e.b]), e.mode, k);
      }
    }
  }

  function Initially(h: History): seq<Store> {
    if h.Then? then Initially(h.before) else h.stores
  }

  /** Two replicas have had a conclusive session with each other. */
  ghost predicate Met(c: Config, h: History, k: Key, a: nat, b: nat)
    requires Sound(c) && Run(c, h)
  {
    && h.Then?
    && ((Conclusive(c, h, k) && {h.event.a, h.event.b} == {a, b}) || Met(c, h.before, k, a, b))
  }

  lemma {:induction false} MetInforms(c: Config, h: History, k: Key, a: nat, b: nat)
    requires Sound(c) && Run(c, h)
    ensures a in Informed(c, h, k, a)
    ensures Met(c, h, k, a, b) || Met(c, h, k, b, a) ==> b in Informed(c, h, k, a)
    decreases h
  {
    if h.Then? {
      MetInforms(c, h.before, k, a, b);
      if Conclusive(c, h, k) && ({h.event.a, h.event.b} == {a, b} || {h.event.a, h.event.b} == {b, a}) {
        assert a in {h.event.a, h.event.b} && b in {h.event.a, h.event.b};
      }
    }
  }

  /**
  Once every two replicas have met, in whatever order, every one of them stores each version that any
  of them held at the start, or is past it.
  */
  lemma EveryoneHas(c: Config, h: History, k: Key, a: nat, b: nat)
    requires Sound(c) && Run(c, h) && a < |Initially(h)| && b < |Initially(h)|
    requires forall i, j :: 0 <= i < j < |Initially(h)| ==> Met(c, h, k, i, j)
    requires Has(Initially(h)[a], c, k)
    ensures b < |h.stores| && Has(h.stores[b], c, k)
  {
    MetInforms(c, h, k, a, b);
    NewsSpreads(c, h, k, a, b);
  }

  // --------------------------------------------------------------- origin

  /** The records an operation brings in. */
  function Brought(e: Event): seq<Record> {
    match e
    case Local(_, Put(r)) => [r]
    case Local(_, Absorb(rs)) => rs
    case _ => []
  }

  /** A record that some replica started with, or that an event brought in. */
  ghost predicate Sourced(h: History, r: Record) {
    match h
    case Start(stores) => StoredIn(stores, r)
    case Then(before, e, _) => Sourced(before, r) || r in Brought(e)
  }

  ghost predicate StoredIn(stores: seq<Store>, r: Record) {
    exists s :: s in stores && r.key in s && s[r.key] == r.entry
  }

  lemma StepBrings(c: Config, s: seq<Store>, e: Event, t: seq<Store>, r: Record)
    requires Sound(c) && Step(c, s, e, t) && StoredIn(t, r)
    ensures StoredIn(s, r) || r in Brought(e)
  {
    var i :| 0 <= i < |t| && r.key in t[i] && t[i][r.key] == r.entry;
    match e
    case Meeting(a, b, m, _) =>
      assert s[a] in s && s[b] in s && s[i] in s;
    case Local(a, op) =>
      assert s[i] in s;
      if i == a {
        OperateBrings(s[a], c, op, r.key);
      }
  }

  lemma OperateBrings(s: Store, c: Config, op: StoreOp, k: Key)
    requires Sound(c) && k in Operate(s, c.layout, c.versions, op)
    ensures var e := Operate(s, c.layout, c.versions, op)[k];
            (k in s && s[k] == e) || Record(k, e) in Brought(Local(0, op))
  {
    match op
    case Put(r) =>
    case Absorb(rs) =>
      ApplySettles(s, c.layout, c.versions, rs);
    case Gc(keys) =>
  }

  /** Nothing is ever stored that was not there at the start or written since. */
  lemma {:induction false} NothingInvented(c: Config, h: History, r: Record)
    requires Sound(c) && Run(c, h) && StoredIn(h.stores, r)
    ensures Sourced(h, r)
    decreases h
  {
    if h.Then? {
      StepBrings(c, h.before.stores, h.event, h.stores, r);
      if r !in Brought(h.event) {
        NothingInvented(c, h.before, r);
      }
    }
  }

  /**
  The newest version of an address is never passed over: every replica its news has reached stores
  it, with the value it was written with.
  */
  lemma NewestEverywhere(c: Config, h: History, k: Key, e: Entry, a: nat, b: nat)
    requires Sound(c) && Run(c, h) && a < |Initially(h)| && k in Initially(h)[a]
    requires forall r :: Sourced(h, r) && PlaceOf(r.key) == PlaceOf(k) ==> c.layout.hlc(r.key) <= c.layout.hlc(k)
    requires forall r :: Sourced(h, r) && r.key == k ==> r.entry == e
    requires b in Informed(c, h, k, a)
    ensures b < |h.stores| && k in h.stores[b] && h.stores[b][k] == e
  {
    NewsSpreads(c, h, k, a, b);
    var s := h.stores[b];
    assert forall j :: j in s ==> StoredIn(h.stores, Record(j, s[j]));
    if k !in s {
      var newer := NewerThan(s, c.layout, k);
      assert newer != {};
      var j :| j in newer;
      NothingInvented(c, h, Record(j, s[j]));
      assert false;
    }
    NothingInvented(c, h, Record(k, s[k]));
  }
}
