/**
Bounded local collection: the paged pass over every group, with hot addresses collected
between pages. Pages are read while earlier entries are being deleted.
*/
module Collector {
  import opened Codec
  import opened Scan
  import opened Versions
  import opened Retention

  /** What one uninterrupted collection of everything would leave. */
  ghost function Final(s: Store, o: Layout, n: nat): Store
    requires Lawful(o)
  {
    Collect(s, o, n, s.Keys)
  }

  /** `t` is `s` with some collectable versions already removed. */
  ghost predicate Underway(t: Store, s: Store, o: Layout, n: nat)
    requires Lawful(o)
  {
    Extends(t, s) && Final(s, o, n).Keys <= t.Keys
  }

  lemma UnderwayAgrees(t: Store, s: Store, o: Layout, n: nat, k: Key)
    requires Lawful(o) && n >= 1 && Underway(t, s, o, n)
    ensures Outside(t, o, n, k) <==> Outside(s, o, n, k)
  {
    CollectKeepsNewest(s, o, n, s.Keys, PlaceOf(k));
    CollectStable(s, t, o, n, k);
  }

  /** Collecting any keys keeps a pass underway, and leaves of those keys only what the pass will leave. */
  lemma CollectAdvances(t: Store, s: Store, o: Layout, n: nat, keys: set<Key>)
    requires Lawful(o) && n >= 1 && Underway(t, s, o, n)
    ensures Underway(Collect(t, o, n, keys), s, o, n)
    ensures forall k :: k in keys && k in Collect(t, o, n, keys) ==> k in Final(s, o, n)
    ensures Collectable(t, o, n, keys) == set k | k in keys && k in t && k !in Final(s, o, n)
  {
    forall k | k in t
      ensures k in keys && Owned(t, k) && Outside(t, o, n, k) <==> k in keys && k !in Final(s, o, n)
    {
      UnderwayAgrees(t, s, o, n, k);
    }
  }

  // --------------------------------------------------- what a pass leaves

  /**
  A pass leaves exactly the `n` newest versions of an address if and only if there are no more
  than `n`, or all are owned and the last `n` in byte order are the `n` newest in time.
  */
  lemma FinalIsNewest(s: Store, o: Layout, n: nat, p: Place)
    requires Lawful(o) && n >= 1
    ensures IsTop(VersionsAt(Final(s, o, n), p), VersionsAt(s, p), o.hlc, n) <==>
            || |VersionsAt(s, p)| <= n
            || ((forall k :: k in VersionsAt(s, p) ==> Owned(s, k)) && IsTop(Newest(s, o, p, n), VersionsAt(s, p), o.hlc, n))
  {
    var all, top, kept := VersionsAt(s, p), Newest(s, o, p, n), VersionsAt(Final(s, o, n), p);
    CollectKeepsNewest(s, o, n, s.Keys, p);
    assert top <= kept <= all;
    forall k | k in all
      ensures k !in kept <==> Owned(s, k) && |top| == n && NewerAmong(top, s, o, k) == top
    {
      OutsideMeans(s, o, n, k);
    }
    if |all| <= n {
      SubsetSize(top, kept);
      SubsetSize(kept, all);
    } else {
      FullAddress(s, o, n, all, top, kept);
    }
  }

  lemma FullAddress(s: Store, o: Layout, n: nat, all: set<Key>, top: set<Key>, kept: set<Key>)
    requires n >= 1 && |all| > n && |top| == n && top <= kept <= all
    requires forall k :: k in all ==> (k !in kept <==> Owned(s, k) && NewerAmong(top, s, o, k) == top)
    ensures IsTop(kept, all, o.hlc, n) <==>
            (forall k :: k in all ==> Owned(s, k)) && IsTop(top, all, o.hlc, n)
  {
    if IsTop(kept, all, o.hlc, n) {
      SubsetSize(top, kept);
      assert top == kept;
      SubsetSize(top, all);
      assert top != all;
      var x :| x in all && x !in top;
      assert NewerAmong(top, s, o, x) == top;
    }
    if (forall k :: k in all ==> Owned(s, k)) && IsTop(top, all, o.hlc, n) {
      forall k | k in kept
        ensures k in top
      {
        assert k !in top ==> NewerAmong(top, s, o, k) == top;
      }
      assert kept == top;
    }
  }

  /** With orders that agree and only owned versions, a pass leaves the `n` newest of every address. */
  lemma FinalWhenOrdersAgree(s: Store, o: Layout, n: nat, p: Place)
    requires Lawful(o) && n >= 1 && AllOwned(s) && OrdersAgree(o, s.Keys)
    ensures IsTop(VersionsAt(Final(s, o, n), p), VersionsAt(s, p), o.hlc, n)
  {
    FinalIsNewest(s, o, n, p);
    var all, top := VersionsAt(s, p), Newest(s, o, p, n);
    assert forall x, y :: x in top && y in all && y !in top ==> o.hlc(y) < o.hlc(x);
  }

  /** A pass is idempotent. */
  lemma FinalStays(s: Store, o: Layout, n: nat)
    requires Lawful(o) && n >= 1
    ensures Final(Final(s, o, n), o, n) == Final(s, o, n)
  {
    var f := Final(s, o, n);
    CollectAdvances(f, s, o, n, f.Keys);
  }

  // ------------------------------------------------------------- collector

  ghost function Beyond(s: Store, o: Layout, after: Option<real>): set<Key> {
    set k | k in s && (after.Some? ==> o.tags(k) > after.value)
  }

  /** `log_page`: TAGS keys after an exclusive cursor. */
  method LogPage(s: Store, o: Layout, after: Option<real>, limit: nat) returns (page: seq<Key>)
    requires Lawful(o)
    ensures IsFirst(page, Beyond(s, o, after), o.tags, limit)
  {
    var rest := set k | k in s && (after.Some? ==> o.tags(k) > after.value);
    LawfulInjective(o, rest);
    page := First(rest, o.tags, limit);
  }

  /** `final` is what a pass leaves of each group of `before`. */
  ghost predicate Aims(before: seq<Store>, final: seq<Store>, c: Config)
    requires Sound(c)
  {
    |before| == |final| && forall g :: 0 <= g < |before| ==> AimsAt(before, final, c, g)
  }

  ghost predicate AimsAt(before: seq<Store>, final: seq<Store>, c: Config, g: nat)
    requires Sound(c) && g < |before| == |final|
  {
    final[g] == Final(before[g], c.layout, c.versions)
  }

  /** Up to the cursor, the store holds only keys of `final`. */
  ghost predicate Cleared(s: Store, o: Layout, after: Option<real>, final: Store) {
    after.Some? ==> forall k :: k in s && o.tags(k) <= after.value ==> k in final
  }

  /** After a page is collected, everything up to its last key is cleared; a short page ends the scan. */
  lemma PageClears(s: Store, t: Store, o: Layout, after: Option<real>, page: seq<Key>, batch: nat, final: Store)
    requires Lawful(o) && batch >= 1 && IsFirst(page, Beyond(s, o, after), o.tags, batch)
    requires Cleared(s, o, after, final) && Extends(t, s)
    requires forall k :: k in page && k in t ==> k in final
    ensures |page| < batch ==> forall k :: k in t ==> k in final
    ensures |page| == batch ==>
              var next := Some(o.tags(page[|page| - 1]));
              Cleared(t, o, next, final) && Beyond(t, o, next) < Beyond(s, o, after)
  {
    if |page| == batch {
      var last := page[|page| - 1];
      var next := Some(o.tags(last));
      forall k | k in t && o.tags(k) <= next.value
        ensures k in final
      {
        assert k in Beyond(s, o, after) ==> k in page;
      }
      assert last in Beyond(s, o, after) && last !in Beyond(t, o, next);
    } else {
      forall k | k in t
        ensures k in final
      {
        assert k in Beyond(s, o, after) ==> k in page;
      }
    }
  }

  /** `keys` are the oldest versions of an address, and what is outside retention among them went. */
  ghost predicate TrimmedBy(s: Store, t: Store, c: Config, p: Place, batch: nat, keys: seq<Key>, count: nat)
    requires Lawful(c.layout)
  {
    && IsFirst(keys, VersionsAt(s, p), c.layout.logs, batch)
    && t == Collect(s, c.layout, c.versions, set k | k in keys)
    && count == |Collectable(s, c.layout, c.versions, set k | k in keys)|
  }

  class GarbageCollector {
    const config: Config
    const batch: nat
    const hotSize: nat
    const pidsPerGroup: nat

    var groups: seq<Group>
    var hot: seq<Place>
    var overflowed: nat
    var scanned: nat
    var collected: nat

    ghost predicate Configured() {
      Sound(config) && batch >= 1 && hotSize >= 1 && pidsPerGroup >= 1
    }

    ghost predicate GroupsConsistent()
      requires config.width > 0
      reads this`groups
    {
      forall g :: 0 <= g < |groups| ==> Consistent(groups[g], config)
    }

    predicate HotBounded()
      reads this`hot
    {
      |hot| <= hotSize && (forall i, j :: 0 <= i < j < |hot| ==> hot[i] != hot[j])
    }

    ghost predicate Valid()
      reads this`groups, this`hot
    {
      Configured() && GroupsConsistent() && HotBounded()
    }

    /** Every group lies between what it was and what the pass leaves. */
    ghost predicate Progressing(before: seq<Store>, final: seq<Store>)
      reads this`groups
    {
      && |groups| == |before| == |final|
      && forall g :: 0 <= g < |groups| ==>
           Extends(groups[g].store, before[g]) && final[g].Keys <= groups[g].store.Keys
    }

    constructor (config: Config, batch: nat, hotSize: nat, pidsPerGroup: nat, groups: seq<Group>)
      requires Sound(config) && batch >= 1 && hotSize >= 1 && pidsPerGroup >= 1
      requires forall g :: 0 <= g < |groups| ==> Consistent(groups[g], config)
      ensures Valid() && this.groups == groups && hot == []
    {
      this.config := config;
      this.batch := batch;
      this.hotSize := hotSize;
      this.pidsPerGroup := pidsPerGroup;
      this.groups := groups;
      hot, overflowed, scanned, collected := [], 0, 0, 0;
    }

    /** Queue an address for early collection, unless queued already or the queue is full. */
    method Submit(p: Place)
      requires HotBounded()
      modifies this`hot, this`overflowed
      ensures HotBounded()
      ensures hot == if p in old(hot) || |old(hot)| >= hotSize then old(hot) else old(hot) + [p]
      ensures overflowed == old(overflowed) + if p !in hot then 1 else 0
    {
      if p in hot {
        return;
      }
      if |hot| >= hotSize {
        overflowed := overflowed + 1;
        return;
      }
      hot := hot + [p];
    }

    method SubmitAll(places: seq<Place>)
      requires HotBounded()
      modifies this`hot, this`overflowed
      ensures HotBounded()
    {
      for i := 0 to |places|
        invariant HotBounded()
      {
        Submit(places[i]);
      }
    }

    /** One transaction that collects `keys` in group `g`. */
    method CollectIn(g: nat, keys: seq<Key>, ghost before: seq<Store>, ghost final: seq<Store>) returns (count: nat)
      requires Configured() && GroupsConsistent() && Aims(before, final, config) && Progressing(before, final)
      requires g < |groups|
      modifies this`groups
      ensures GroupsConsistent() && Progressing(before, final)
      ensures groups == old(groups)[g := groups[g]]
      ensures Extends(groups[g].store, old(groups[g].store))
      ensures groups[g].store == Collect(old(groups[g].store), config.layout, config.versions, set k | k in keys)
      ensures count == |Collectable(old(groups[g].store), config.layout, config.versions, set k | k in keys)|
      ensures forall k :: k in keys && k in groups[g].store ==> k in final[g]
    {
      assert AimsAt(before, final, config, g);
      CollectAdvances(groups[g].store, before[g], config.layout, config.versions, set k | k in keys);
      var group;
      group, count := CollectTransaction(groups[g], config, keys);
      groups := groups[g := group];
    }

    function GroupOf(p: Place): int
      requires pidsPerGroup >= 1
    {
      p.pid / pidsPerGroup
    }

    /** The oldest versions of the address that are out of retention went, in its own group alone; how many. */
    ghost predicate Trimmed(before: seq<Group>, after: seq<Group>, p: Place, count: nat)
      requires Configured()
    {
      if 0 <= GroupOf(p) < |before| then
        var g := GroupOf(p);
        && |after| == |before| && after == before[g := after[g]]
        && exists keys: seq<Key> :: TrimmedBy(before[g].store, after[g].store, config, p, batch, keys, count)
      else after == before && count == 0
    }

    /** Collect the oldest versions of one address. */
    method CollectAddress(p: Place, ghost before: seq<Store>, ghost final: seq<Store>) returns (count: nat)
      requires Configured() && GroupsConsistent() && Aims(before, final, config) && Progressing(before, final)
      modifies this`groups
      ensures GroupsConsistent() && Progressing(before, final)
      ensures forall g :: 0 <= g < |groups| ==> Extends(groups[g].store, old(groups[g].store))
      ensures Trimmed(old(groups), groups, p, count)
    {
      count := 0;
      var g := GroupOf(p);
      if 0 <= g < |groups| {
        LawfulInjective(config.layout, VersionsAt(groups[g].store, p));
        var keys := First(VersionsAt(groups[g].store, p), config.layout.logs, batch);
        count := CollectIn(g, keys, before, final);
        assert TrimmedBy(old(groups[g].store), groups[g].store, config, p, batch, keys, count);
      }
    }

    /** Collect the hot address queued first, and queue it again when a full batch went. */
    method HotStep(ghost before: seq<Store>, ghost final: seq<Store>) returns (ghost count: nat)
      requires Valid() && Aims(before, final, config) && Progressing(before, final)
      modifies this`groups, this`hot, this`overflowed
      ensures Valid() && Progressing(before, final)
      ensures forall g :: 0 <= g < |groups| ==> Extends(groups[g].store, old(groups[g].store))
      ensures old(hot) == [] ==> hot == [] && groups == old(groups)
      ensures old(hot) != [] ==>
        && Trimmed(old(groups), groups, old(hot)[0], count)
        && hot == old(hot)[1..] + (if count == batch then [old(hot)[0]] else [])
    {
      count := 0;
      if hot == [] {
        return;
      }
      var p := Pop();
      var collected := CollectAddress(p, before, final);
      if collected == batch {
        Submit(p);
      }
      count := collected;
    }

    method Pop() returns (p: Place)
      requires HotBounded() && hot != []
      modifies this`hot
      ensures HotBounded() && p == old(hot)[0] && hot == old(hot)[1..] && p !in hot && |hot| < hotSize
    {
      p := hot[0];
      hot := hot[1..];
    }

    /** A hot step between two pages keeps the pass underway. */
    method HotTurn(ghost before: seq<Store>, ghost final: seq<Store>)
      requires Valid() && Aims(before, final, config) && Progressing(before, final)
      modifies this`groups, this`hot, this`overflowed
      ensures Valid() && Progressing(before, final)
      ensures forall g :: 0 <= g < |groups| ==> Extends(groups[g].store, old(groups[g].store))
    {
      var _ := HotStep(before, final);
    }

    /** Collect one page of group `g` after a cursor; the next cursor, or none at the end. */
    method ScanPage(g: nat, after: Option<real>, ghost before: seq<Store>, ghost final: seq<Store>)
      returns (next: Option<real>)
      requires Configured() && GroupsConsistent() && Aims(before, final, config) && Progressing(before, final)
      requires g < |groups| && Cleared(groups[g].store, config.layout, after, final[g])
      modifies this`groups, this`scanned, this`collected
      ensures GroupsConsistent() && Progressing(before, final)
      ensures groups == old(groups)[g := groups[g]] && Extends(groups[g].store, old(groups[g].store))
      ensures Cleared(groups[g].store, config.layout, next, final[g])
      ensures next == None ==> groups[g].store.Keys == final[g].Keys
      ensures next.Some? ==>
                Beyond(groups[g].store, config.layout, next) < Beyond(old(groups[g].store), config.layout, after)
    {
      var keys := LogPage(groups[g].store, config.layout, after, batch);
      var count := CollectIn(g, keys, before, final);
      PageClears(old(groups[g].store), groups[g].store, config.layout, after, keys, batch, final[g]);
      scanned := scanned + |keys|;
      collected := collected + count;
      next := if |keys| < batch then None else Some(config.layout.tags(keys[|keys| - 1]));
    }

    /** Scan group `g` to its end; `arrivals` are the addresses submitted meanwhile, page by page. */
    method ScanGroup(g: nat, arrivals: seq<seq<Place>>, ghost before: seq<Store>, ghost final: seq<Store>)
      requires Valid() && Aims(before, final, config) && Progressing(before, final) && g < |groups|
      modifies this`groups, this`hot, this`overflowed, this`scanned, this`collected
      ensures Valid() && Progressing(before, final)
      ensures groups[g].store.Keys == final[g].Keys
      ensures forall h :: 0 <= h < |groups| ==> Extends(groups[h].store, old(groups[h].store))
    {
      var after: Option<real> := None;
      var page := 0;
      while true
        invariant Valid() && Progressing(before, final)
        invariant Cleared(groups[g].store, config.layout, after, final[g])
        invariant forall h :: 0 <= h < |groups| ==> Extends(groups[h].store, old(groups[h].store))
        decreases Beyond(groups[g].store, config.layout, after)
      {
        after := ScanPage(g, after, before, final);
        if after == None {
          break;
        }
        if page < |arrivals| {
          SubmitAll(arrivals[page]);
        }
        page := page + 1;
        HotTurn(before, final);
      }
    }

    method ScanAll(arrivals: seq<seq<seq<Place>>>, ghost before: seq<Store>, ghost final: seq<Store>)
      requires Valid() && Aims(before, final, config) && Progressing(before, final)
      modifies this`groups, this`hot, this`overflowed, this`scanned, this`collected
      ensures Valid() && Progressing(before, final)
      ensures forall g :: 0 <= g < |groups| ==> groups[g].store.Keys == final[g].Keys
    {
      for g := 0 to |groups|
        invariant Valid() && Progressing(before, final)
        invariant forall h :: 0 <= h < g ==> groups[h].store.Keys == final[h].Keys
      {
        ScanGroup(g, if g < |arrivals| then arrivals[g] else [], before, final);
      }
    }

    /** A full pass: every group ends with exactly what one collection of everything leaves. */
    method Scan(arrivals: seq<seq<seq<Place>>>)
      requires Valid()
      modifies this`groups, this`hot, this`overflowed, this`scanned, this`collected
      ensures Valid() && |groups| == |old(groups)|
      ensures forall g :: 0 <= g < |groups| ==>
                groups[g].store == Final(old(groups[g].store), config.layout, config.versions)
    {
      ghost var before, final := Goals(groups, config);
      ScanAll(arrivals, before, final);
      forall g | 0 <= g < |groups|
        ensures groups[g].store == Final(old(groups[g].store), config.layout, config.versions)
      {
        assert AimsAt(before, final, config, g);
      }
    }
  }

  lemma Goals(groups: seq<Group>, c: Config) returns (before: seq<Store>, final: seq<Store>)
    requires Sound(c)
    ensures |before| == |groups| && Aims(before, final, c)
    ensures forall g :: 0 <= g < |groups| ==> before[g] == groups[g].store && Extends(final[g], before[g])
  {
    before := seq(|groups|, g requires 0 <= g < |groups| => groups[g].store);
    final := seq(|groups|, g requires 0 <= g < |groups| => Final(groups[g].store, c.layout, c.versions));
  }
}
