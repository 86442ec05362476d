/**
Version retention: which versions of an address may be refused or removed.

A bounded reverse scan of LOGS gives the last `versions` keys of an address. A version is
outside retention when that many owned, strictly newer versions were found.
*/
module Retention {
  import opened Codec
  import opened Scan
  import opened Versions
  import opened Digest
  import opened Session

  /** The last `n` versions of an address, in LOGS order. */
  ghost function Newest(s: Store, o: Layout, p: Place, n: nat): set<Key>
    requires Lawful(o)
  {
    LawfulInjective(o, VersionsAt(s, p));
    Top(VersionsAt(s, p), o.logs, n)
  }

  ghost function NewerAmong(keys: set<Key>, s: Store, o: Layout, k: Key): set<Key> {
    set j | j in keys && Owned(s, j) && o.hlc(j) > o.hlc(k)
  }

  ghost predicate Outside(s: Store, o: Layout, n: nat, k: Key)
    requires Lawful(o)
  {
    |NewerAmong(Newest(s, o, PlaceOf(k), n), s, o, k)| >= n
  }

  /** Owned versions of the address of `k` that are strictly newer than `k`. */
  ghost function NewerThan(s: Store, o: Layout, k: Key): set<Key> {
    NewerAmong(VersionsAt(s, PlaceOf(k)), s, o, k)
  }

  /** Enough newer versions are held for `k` to be out of retention. */
  ghost predicate Superseded(s: Store, o: Layout, n: nat, k: Key) {
    |NewerThan(s, o, k)| >= n
  }

  /** The scan is full, and every version it found is owned and newer. */
  lemma OutsideMeans(s: Store, o: Layout, n: nat, k: Key)
    requires Lawful(o) && n >= 1
    ensures Outside(s, o, n, k) <==>
            && |Newest(s, o, PlaceOf(k), n)| == n
            && NewerAmong(Newest(s, o, PlaceOf(k), n), s, o, k) == Newest(s, o, PlaceOf(k), n)
    ensures Outside(s, o, n, k) ==> Superseded(s, o, n, k) && k !in Newest(s, o, PlaceOf(k), n)
  {
    var top := Newest(s, o, PlaceOf(k), n);
    SubsetSize(NewerAmong(top, s, o, k), top);
    SubsetSize(NewerAmong(top, s, o, k), NewerThan(s, o, k));
  }

  lemma SupersededStays(s: Store, t: Store, o: Layout, n: nat, k: Key)
    requires Extends(s, t) && Superseded(s, o, n, k)
    ensures Superseded(t, o, n, k)
  {
    SubsetSize(NewerThan(s, o, k), NewerThan(t, o, k));
  }

  /**
  When byte order and timestamp order agree and every stored version is owned, the bounded
  scan misses nothing: outside retention means `n` newer versions exist.
  */
  lemma OutsideIsSuperseded(s: Store, o: Layout, n: nat, k: Key)
    requires Lawful(o) && n >= 1 && AllOwned(s) && OrdersAgree(o, s.Keys)
    ensures Outside(s, o, n, k) <==> Superseded(s, o, n, k)
  {
    OutsideMeans(s, o, n, k);
    if Superseded(s, o, n, k) {
      var all := VersionsAt(s, PlaceOf(k));
      var top, newer := Newest(s, o, PlaceOf(k), n), NewerThan(s, o, k);
      SubsetSize(newer, all);
      if x :| x in top && o.hlc(x) <= o.hlc(k) {
        forall y | y in newer
          ensures y in top - {x}
        {
          assert o.logs(x) < o.logs(y) || y == x;
        }
        SubsetSize(newer, top - {x});
      }
      assert NewerAmong(top, s, o, k) == top;
    }
  }

  // ----------------------------------------------------------- collection

  ghost function Collectable(s: Store, o: Layout, n: nat, keys: set<Key>): set<Key>
    requires Lawful(o)
  {
    set k | k in keys && Owned(s, k) && Outside(s, o, n, k)
  }

  ghost function Collect(s: Store, o: Layout, n: nat, keys: set<Key>): Store
    requires Lawful(o)
  {
    s - Collectable(s, o, n, keys)
  }

  /** Collection never touches what the scans find. */
  lemma CollectKeepsNewest(s: Store, o: Layout, n: nat, keys: set<Key>, p: Place)
    requires Lawful(o) && n >= 1
    ensures Newest(s, o, p, n) <= Collect(s, o, n, keys).Keys
    ensures Newest(Collect(s, o, n, keys), o, p, n) == Newest(s, o, p, n)
  {
    var t := Collect(s, o, n, keys);
    var top := Newest(s, o, p, n);
    forall k | k in top
      ensures k in t
    {
      OutsideMeans(s, o, n, k);
    }
    TopStable(top, VersionsAt(s, p), VersionsAt(t, p), o.logs, n);
    TopUnique(top, Newest(t, o, p, n), VersionsAt(t, p), o.logs, n);
  }

  /**
  Whatever the two orders do, each removed version leaves at least `n` owned, strictly newer
  versions of its address behind.
  */
  lemma CollectIsSafe(s: Store, o: Layout, n: nat, keys: set<Key>, k: Key)
    requires Lawful(o) && n >= 1
    requires k in s && k !in Collect(s, o, n, keys)
    ensures Superseded(Collect(s, o, n, keys), o, n, k)
  {
    var t := Collect(s, o, n, keys);
    OutsideMeans(s, o, n, k);
    CollectKeepsNewest(s, o, n, keys, PlaceOf(k));
    SubsetSize(Newest(s, o, PlaceOf(k), n), NewerThan(t, o, k));
  }

  /** A newer tombstone counts like any version: it pushes what it deletes out, and a version of another kind does not. */
  lemma TombstoneBuries(o: Layout, k: Key, e: Entry, j: Key, f: Entry)
    requires Lawful(o) && PlaceOf(j) == PlaceOf(k) && o.hlc(j) > o.hlc(k) && o.logs(j) > o.logs(k) && e.tag.kind == LIVE
    ensures f.tag.kind == LIVE || f.tag.kind == TOMBSTONE ==> Collect(map[k := e, j := f], o, 1, {k, j}) == map[j := f]
    ensures f.tag.kind != LIVE && f.tag.kind != TOMBSTONE ==> Collect(map[k := e, j := f], o, 1, {k, j}) == map[k := e, j := f]
  {
    var s: Store := map[k := e, j := f];
    assert j != k && VersionsAt(s, PlaceOf(k)) == {k, j};
    var top := Newest(s, o, PlaceOf(k), 1);
    assert IsTop({j}, {k, j}, o.logs, 1);
    TopUnique(top, {j}, {k, j}, o.logs, 1);
    OutsideMeans(s, o, 1, k);
    OutsideMeans(s, o, 1, j);
    assert NewerAmong(top, s, o, j) == {};
    assert NewerAmong(top, s, o, k) == if Owned(s, j) then {j} else {};
  }

  /** The greatest owned timestamp of an address, a tombstone included, is never collected. */
  lemma LatestSurvives(s: Store, o: Layout, n: nat, keys: set<Key>, k: Key)
    requires Lawful(o) && n >= 1
    requires k in s && NewerThan(s, o, k) == {}
    ensures k in Collect(s, o, n, keys)
  {
    OutsideMeans(s, o, n, k);
  }

  /** A version of the same address at least as new. */
  ghost predicate NoOlderThan(o: Layout, w: Key, k: Key) {
    PlaceOf(k) == PlaceOf(w) && o.hlc(k) >= o.hlc(w)
  }

  ghost predicate Reaches(s: Store, o: Layout, w: Key) {
    exists k :: k in s && NoOlderThan(o, w, k)
  }

  lemma ExtendsReaches(s: Store, t: Store, o: Layout, w: Key)
    requires Extends(s, t) && Reaches(s, o, w)
    ensures Reaches(t, o, w)
  {
    var k :| k in s && NoOlderThan(o, w, k);
    assert k in t;
  }

  /** Collection never loses sight of a version: it leaves it, or something newer. */
  lemma CollectReaches(s: Store, o: Layout, n: nat, keys: set<Key>, w: Key)
    requires Lawful(o) && n >= 1 && Reaches(s, o, w)
    ensures Reaches(Collect(s, o, n, keys), o, w)
  {
    var t := Collect(s, o, n, keys);
    var k :| k in s && NoOlderThan(o, w, k);
    if k !in t {
      CollectIsSafe(s, o, n, keys, k);
      var newer := NewerThan(t, o, k);
      assert newer != {};
      var j :| j in newer;
      assert j in t && NoOlderThan(o, w, j);
    }
  }

  /** What happens to a replica's store between two of our looks at it. */
  datatype StoreOp = Put(record: Record) | Absorb(records: seq<Record>) | Gc(keys: set<Key>)

  ghost function Operate(s: Store, o: Layout, n: nat, op: StoreOp): Store
    requires Lawful(o)
  {
    match op
    case Put(r) => Insert(s, r)
    case Absorb(rs) => Apply(s, o, n, rs)
    case Gc(keys) => Collect(s, o, n, keys)
  }

  lemma OperateReaches(s: Store, o: Layout, n: nat, op: StoreOp, w: Key)
    requires Lawful(o) && n >= 1 && Reaches(s, o, w)
    ensures Reaches(Operate(s, o, n, op), o, w)
  {
    match op
    case Put(r) =>
      ExtendsReaches(s, Insert(s, r), o, w);
    case Absorb(rs) =>
      ApplySettles(s, o, n, rs);
      ExtendsReaches(s, Apply(s, o, n, rs), o, w);
    case Gc(keys) =>
      CollectReaches(s, o, n, keys, w);
  }

  /** A replica given a record holds it afterwards, or something newer. */
  lemma ApplyReaches(s: Store, o: Layout, n: nat, rs: seq<Record>, r: Record, w: Key)
    requires Lawful(o) && n >= 1 && r in rs && NoOlderThan(o, w, r.key)
    ensures Reaches(Apply(s, o, n, rs), o, w)
  {
    var t := Apply(s, o, n, rs);
    ApplySettles(s, o, n, rs);
    if r.key !in t {
      var newer := NewerThan(t, o, r.key);
      assert newer != {};
      var j :| j in newer;
      assert j in t && NoOlderThan(o, w, j);
    }
  }

  /** Where byte order and time agree, the version a read finds is as new as any the store reaches. */
  lemma LatestReaches(s: Store, o: Layout, w: Key, k: Key)
    requires Lawful(o) && Reaches(s, o, w) && IsLatest(s, o, PlaceOf(w), k) && OrdersAgree(o, s.Keys)
    ensures NoOlderThan(o, w, k)
  {
    var j :| j in s && NoOlderThan(o, w, j);
    assert Apart(o, j, k);
    assert j in VersionsAt(s, PlaceOf(w));
  }

  /** Collecting in one go or in pieces, whatever else was already collected, removes the same versions. */
  lemma CollectStable(s: Store, t: Store, o: Layout, n: nat, k: Key)
    requires Lawful(o) && n >= 1
    requires Extends(t, s) && Newest(s, o, PlaceOf(k), n) <= t.Keys
    ensures Outside(t, o, n, k) <==> Outside(s, o, n, k)
  {
    var p := PlaceOf(k);
    var top := Newest(s, o, p, n);
    TopStable(top, VersionsAt(s, p), VersionsAt(t, p), o.logs, n);
    TopUnique(top, Newest(t, o, p, n), VersionsAt(t, p), o.logs, n);
    assert NewerAmong(top, t, o, k) == NewerAmong(top, s, o, k);
  }

  // ---------------------------------------------------------- application

  datatype Disposition = Applied | AlreadyPresent | IgnoredRetention

  function KeysOf(rs: seq<Record>): set<Key> {
    set r | r in rs :: r.key
  }

  ghost function OutsideAmong(s: Store, o: Layout, n: nat, keys: set<Key>): set<Key>
    requires Lawful(o)
  {
    set k | k in keys && Outside(s, o, n, k)
  }

  /** The records whose keys are not in `out`. */
  function Accepted(out: set<Key>, rs: seq<Record>): seq<Record> {
    if |rs| == 0 then []
    else
      var r := rs[|rs| - 1];
      Accepted(out, rs[..|rs| - 1]) + (if r.key in out then [] else [r])
  }

  /** What happens to each record, in order, when the keys of `out` are refused. */
  function Dispositions(s: Store, out: set<Key>, rs: seq<Record>): seq<Disposition> {
    if |rs| == 0 then []
    else
      var init, k := rs[..|rs| - 1], rs[|rs| - 1].key;
      Dispositions(s, out, init)
      + [if k in out then IgnoredRetention
         else if k in InsertAll(s, Accepted(out, init)) then AlreadyPresent
         else Applied]
  }

  /** Refusals are decided on the store as it was before the batch. */
  ghost function Refusals(s: Store, o: Layout, n: nat, rs: seq<Record>): set<Key>
    requires Lawful(o)
  {
    OutsideAmong(s, o, n, KeysOf(rs))
  }

  ghost function Apply(s: Store, o: Layout, n: nat, rs: seq<Record>): Store
    requires Lawful(o)
  {
    InsertAll(s, Accepted(Refusals(s, o, n, rs), rs))
  }

  lemma {:induction false} AcceptedExactly(out: set<Key>, rs: seq<Record>)
    ensures forall r :: r in Accepted(out, rs) <==> r in rs && r.key !in out
    ensures |Accepted(out, rs)| <= |rs|
  {
    if |rs| > 0 {
      var init := rs[..|rs| - 1];
      AcceptedExactly(out, init);
      assert rs == init + [rs[|rs| - 1]];
    }
  }

  lemma {:induction false} AcceptedPrefix(out: set<Key>, rs: seq<Record>, i: nat)
    requires i <= |rs|
    ensures Accepted(out, rs[..i]) <= Accepted(out, rs)
    decreases |rs|
  {
    if i < |rs| {
      var init := rs[..|rs| - 1];
      AcceptedPrefix(out, init, i);
      assert init[..i] == rs[..i];
    } else {
      assert rs[..i] == rs;
    }
  }

  /** Every record ends up stored or out of retention, and nothing else changes. */
  lemma ApplySettles(s: Store, o: Layout, n: nat, rs: seq<Record>)
    requires Lawful(o) && n >= 1
    ensures Extends(s, Apply(s, o, n, rs))
    ensures forall r :: r in rs ==> r.key in Apply(s, o, n, rs) || Superseded(Apply(s, o, n, rs), o, n, r.key)
    ensures forall k :: k in Apply(s, o, n, rs) && k !in s ==> Record(k, Apply(s, o, n, rs)[k]) in rs
  {
    var out := Refusals(s, o, n, rs);
    var a, t := Accepted(out, rs), Apply(s, o, n, rs);
    AcceptedExactly(out, rs);
    InsertAllExtends(s, a);
    forall r | r in rs
      ensures r.key in t || Superseded(t, o, n, r.key)
    {
      if r.key in out {
        OutsideMeans(s, o, n, r.key);
        SupersededStays(s, t, o, n, r.key);
      } else {
        var i :| 0 <= i < |a| && a[i] == r;
      }
    }
    forall k | k in t && k !in s
      ensures Record(k, t[k]) in rs
    {
      InsertAllFromRecords(s, a, k);
    }
  }

  function CountOf(d: seq<Disposition>, x: Disposition): (n: nat)
    ensures n <= |d|
  {
    if |d| == 0 then 0 else CountOf(d[..|d| - 1], x) + (if d[|d| - 1] == x then 1 else 0)
  }

  lemma {:induction false} CountsCover(d: seq<Disposition>)
    ensures CountOf(d, Applied) + CountOf(d, AlreadyPresent) + CountOf(d, IgnoredRetention) == |d|
  {
    if |d| > 0 {
      CountsCover(d[..|d| - 1]);
    }
  }

  /** Every record is accounted for, and the store grows by the number reported as applied. */
  lemma {:induction false} AppliedCounts(s: Store, out: set<Key>, rs: seq<Record>)
    ensures |Dispositions(s, out, rs)| == |rs|
    ensures |InsertAll(s, Accepted(out, rs))| == |s| + CountOf(Dispositions(s, out, rs), Applied)
  {
    if |rs| > 0 {
      var init, r := rs[..|rs| - 1], rs[|rs| - 1];
      AppliedCounts(s, out, init);
      var a, d := Accepted(out, init), Dispositions(s, out, rs);
      assert d[..|d| - 1] == Dispositions(s, out, init);
      if r.key in out {
        assert a + [] == a;
      } else {
        assert (a + [r])[..|a|] == a;
        var t := InsertAll(s, a);
        if r.key !in t {
          assert InsertAll(s, a + [r]).Keys == t.Keys + {r.key};
        }
      }
    }
  }

  /** A record is refused, already there before it came up, or stored. */
  predicate Repeated(s: Store, rs: seq<Record>, i: nat)
    requires i < |rs|
  {
    rs[i].key in s || exists j :: 0 <= j < i && rs[j].key == rs[i].key
  }

  lemma {:induction false} DispositionsLength(s: Store, out: set<Key>, rs: seq<Record>)
    ensures |Dispositions(s, out, rs)| == |rs|
  {
    if |rs| > 0 {
      DispositionsLength(s, out, rs[..|rs| - 1]);
    }
  }

  /** An accepted key among records is one that some record has. */
  lemma AcceptedKey(out: set<Key>, rs: seq<Record>, k: Key)
    requires k !in out
    ensures k in KeysOf(Accepted(out, rs)) <==> exists j :: 0 <= j < |rs| && rs[j].key == k
  {
    AcceptedExactly(out, rs);
    if j :| 0 <= j < |rs| && rs[j].key == k {
      assert rs[j] in Accepted(out, rs);
    }
    if k in KeysOf(Accepted(out, rs)) {
      var r :| r in Accepted(out, rs) && r.key == k;
      var j :| 0 <= j < |rs| && rs[j] == r;
      assert rs[j].key == k;
    }
  }

  lemma LastDisposition(s: Store, out: set<Key>, rs: seq<Record>)
    requires |rs| > 0
    ensures var n := |rs| - 1; var d := Dispositions(s, out, rs);
            |d| == |rs| && d[n] == if rs[n].key in out then IgnoredRetention else if Repeated(s, rs, n) then AlreadyPresent else Applied
  {
    var n := |rs| - 1;
    var init, k := rs[..n], rs[n].key;
    DispositionsLength(s, out, rs);
    DispositionsLength(s, out, init);
    if k !in out {
      InsertedKeys(s, Accepted(out, init), k);
      AcceptedKey(out, init, k);
      assert (exists j :: 0 <= j < |init| && init[j].key == k) <==> exists j :: 0 <= j < n && rs[j].key == k by {
        assert forall j :: 0 <= j < n ==> init[j] == rs[j];
      }
    }
  }

  lemma {:induction false} DispositionsMean(s: Store, out: set<Key>, rs: seq<Record>, i: nat)
    requires i < |rs|
    ensures |Dispositions(s, out, rs)| == |rs|
    ensures Dispositions(s, out, rs)[i] ==
            if rs[i].key in out then IgnoredRetention else if Repeated(s, rs, i) then AlreadyPresent else Applied
  {
    DispositionsLength(s, out, rs);
    var init := rs[..|rs| - 1];
    if i < |init| {
      DispositionsMean(s, out, init, i);
      assert forall j :: 0 <= j <= i ==> init[j] == rs[j];
      assert Dispositions(s, out, rs)[i] == Dispositions(s, out, init)[i];
    } else {
      LastDisposition(s, out, rs);
    }
  }

  lemma {:induction false} InsertedKeys(s: Store, rs: seq<Record>, k: Key)
    ensures k in InsertAll(s, rs) <==> k in s || k in KeysOf(rs)
  {
    if |rs| > 0 {
      var init := rs[..|rs| - 1];
      InsertedKeys(s, init, k);
      assert rs == init + [rs[|rs| - 1]];
      assert KeysOf(rs) == KeysOf(init) + {rs[|rs| - 1].key};
    }
  }

  ghost function Places(d: seq<Disposition>, x: Disposition): set<nat> {
    set i: nat | i < |d| && d[i] == x
  }

  lemma {:induction false} CountIsPlaces(d: seq<Disposition>, x: Disposition)
    ensures CountOf(d, x) == |Places(d, x)|
  {
    if |d| > 0 {
      var n := |d| - 1;
      var before := Places(d[..n], x);
      CountIsPlaces(d[..n], x);
      assert n !in before && Places(d, x) == before + (if d[n] == x then {n} else {});
    }
  }

  lemma ReportStep(s: Store, out: set<Key>, rs: seq<Record>, i: nat)
    requires i < |rs|
    ensures var a, next := Accepted(out, rs), |Accepted(out, rs[..i])|;
            if rs[i].key in out then
              && |Accepted(out, rs[..i + 1])| == next
              && Dispositions(s, out, rs[..i + 1]) == Dispositions(s, out, rs[..i]) + [IgnoredRetention]
            else
              && |Accepted(out, rs[..i + 1])| == next + 1 <= |a|
              && Dispositions(s, out, rs[..i + 1])
                 == Dispositions(s, out, rs[..i]) + [if Written(s, a)[next] then Applied else AlreadyPresent]
  {
    var upto := rs[..i + 1];
    assert upto[..|upto| - 1] == rs[..i] && upto[|upto| - 1] == rs[i];
    if rs[i].key !in out {
      var a, next := Accepted(out, rs), |Accepted(out, rs[..i])|;
      AcceptedPrefix(out, rs, i + 1);
      AcceptedPrefix(out, rs, i);
      assert a[..next] == Accepted(out, rs[..i]);
      assert a[next] == Accepted(out, upto)[next] == rs[i];
      WrittenAt(s, a, next);
    }
  }

  /** Pair each accepted record with its insertion result, in order. */
  method Report(ghost s: Store, ghost out: set<Key>, records: seq<Record>, accepted: seq<bool>, inserted: seq<bool>)
    returns (dispositions: seq<Disposition>)
    requires |accepted| == |records|
    requires forall i :: 0 <= i < |records| ==> accepted[i] == (records[i].key !in out)
    requires inserted == Written(s, Accepted(out, records))
    ensures dispositions == Dispositions(s, out, records)
  {
    dispositions := [];
    var next := 0;
    for i := 0 to |records|
      invariant dispositions == Dispositions(s, out, records[..i])
      invariant next == |Accepted(out, records[..i])|
    {
      ReportStep(s, out, records, i);
      if accepted[i] {
        dispositions := dispositions + [if inserted[next] then Applied else AlreadyPresent];
        next := next + 1;
      } else {
        dispositions := dispositions + [IgnoredRetention];
      }
    }
    assert records[..|records|] == records;
  }

  // --------------------------------------------------------------- policy

  /** The newest versions of each address, one bounded scan per address. */
  method NewestOf(s: Store, o: Layout, n: nat, places: set<Place>) returns (newest: map<Place, set<Key>>)
    requires Lawful(o)
    ensures newest.Keys == places && forall p :: p in places ==> newest[p] == Newest(s, o, p, n)
  {
    newest := map[];
    var rest := places;
    while rest != {}
      invariant rest <= places && newest.Keys == places - rest
      invariant forall p :: p in newest ==> newest[p] == Newest(s, o, p, n)
      decreases rest
    {
      var p :| p in rest;
      LawfulInjective(o, VersionsAt(s, p));
      var found := Last(VersionsAt(s, p), o.logs, n);
      newest := newest[p := found];
      rest := rest - {p};
    }
  }

  /** Count the owned identities of the address that are newer than `k`. */
  method IsOutside(s: Store, o: Layout, n: nat, k: Key, newest: set<Key>) returns (outside: bool)
    requires Lawful(o) && newest == Newest(s, o, PlaceOf(k), n)
    ensures outside == Outside(s, o, n, k)
  {
    var newer := set j | j in newest && j in s && OwnedTag(s[j].tag) && o.hlc(j) > o.hlc(k);
    assert newer == NewerAmong(newest, s, o, k);
    outside := |newer| >= n;
  }

  /** The keys that are outside retention now. */
  method FindOutside(s: Store, o: Layout, n: nat, keys: set<Key>) returns (out: set<Key>)
    requires Lawful(o)
    ensures out == OutsideAmong(s, o, n, keys)
  {
    var places := set k | k in keys :: PlaceOf(k);
    var newest := NewestOf(s, o, n, places);
    out := {};
    var rest := keys;
    while rest != {}
      invariant rest <= keys
      invariant out == OutsideAmong(s, o, n, keys - rest)
      decreases rest
    {
      var k :| k in rest;
      assert PlaceOf(k) in places;
      var outside := IsOutside(s, o, n, k, newest[PlaceOf(k)]);
      OutsideGain(s, o, n, keys, rest, k);
      out := if outside then out + {k} else out;
      rest := rest - {k};
    }
    assert keys - rest == keys;
  }

  lemma OutsideGain(s: Store, o: Layout, n: nat, keys: set<Key>, rest: set<Key>, k: Key)
    requires Lawful(o) && k in rest && rest <= keys
    ensures OutsideAmong(s, o, n, keys - (rest - {k}))
         == OutsideAmong(s, o, n, keys - rest) + (if Outside(s, o, n, k) then {k} else {})
  {
    var before, after := keys - rest, keys - (rest - {k});
    forall x
      ensures x in after <==> x in before || x == k
    {
    }
  }

  /** Retention operations inside a caller-owned transaction. */
  class RetentionPolicy {
    const versions: nat

    constructor (versions: nat)
      ensures this.versions == versions
    {
      this.versions := versions;
    }

    method ApplyIn(session: GroupSession, records: seq<Record>) returns (dispositions: seq<Disposition>)
      requires session.Valid()
      modifies session`tags, session`logs, session`stored, session`deltas
      ensures session.Valid()
      ensures session.Contents() == Apply(old(session.Contents()), session.layout, versions, records)
      ensures var s, o := old(session.Contents()), session.layout;
              dispositions == Dispositions(s, Refusals(s, o, versions, records), records)
    {
      ghost var s := session.Contents();
      var out := FindOutside(session.Contents(), session.layout, versions, KeysOf(records));
      var accepted := seq(|records|, i requires 0 <= i < |records| => records[i].key !in out);
      var inserted := session.PutMany(Accepted(out, records));
      dispositions := Report(s, out, records, accepted, inserted);
    }

    method CollectIn(session: GroupSession, keys: seq<Key>) returns (count: nat)
      requires session.Valid()
      modifies session`tags, session`logs, session`stored, session`deltas
      ensures session.Valid()
      ensures var gone := Collectable(old(session.Contents()), session.layout, versions, set k | k in keys);
              session.Contents() == old(session.Contents()) - gone && count == |gone|
    {
      ghost var s := session.Contents();
      var out := FindOutside(session.Contents(), session.layout, versions, set k | k in keys);
      var candidates := Filter(keys, out);
      assert OwnedAmong(s, candidates) == Collectable(s, session.layout, versions, set k | k in keys);
      count := session.Remove(candidates);
    }
  }

  /** The keys of `out`, each once, in the order of `keys`. */
  method Filter(keys: seq<Key>, out: set<Key>) returns (r: seq<Key>)
    ensures forall k :: k in r <==> k in keys && k in out
  {
    r := [];
    for i := 0 to |keys|
      invariant forall k :: k in r <==> k in keys[..i] && k in out
    {
      if keys[i] in out && keys[i] !in r {
        r := r + [keys[i]];
      }
    }
    assert keys[..|keys|] == keys;
  }

  // --------------------------------------------------------- transactions

  /** Constants shared by the replicas of a cluster. */
  datatype Config = Config(layout: Layout, of: Key -> Cell, width: nat, versions: nat)

  /** Committed state of one partition group. */
  datatype Group = Group(store: Store, cells: Cells)

  ghost predicate Sound(c: Config) {
    Lawful(c.layout) && Counting(c.of) && c.width > 0 && c.versions >= 1
  }

  ghost predicate Consistent(g: Group, c: Config)
    requires c.width > 0
  {
    Exact(g.cells, OwnedKeys(g.store), c.of, c.width)
  }

  method CollectTransaction(g: Group, c: Config, keys: seq<Key>) returns (g': Group, count: nat)
    requires Sound(c) && Consistent(g, c)
    ensures Consistent(g', c)
    ensures g'.store == Collect(g.store, c.layout, c.versions, set k | k in keys)
    ensures count == |Collectable(g.store, c.layout, c.versions, set k | k in keys)|
  {
    var session := new GroupSession(c.layout, c.of, c.width, g.store, g.cells);
    var policy := new RetentionPolicy(c.versions);
    count := policy.CollectIn(session, keys);
    session.Flush();
    g' := Group(session.Contents(), session.cells);
  }

  method ApplyTransaction(g: Group, c: Config, records: seq<Record>) returns (g': Group, dispositions: seq<Disposition>)
    requires Sound(c) && Consistent(g, c)
    ensures Consistent(g', c)
    ensures g'.store == Apply(g.store, c.layout, c.versions, records)
    ensures dispositions == Dispositions(g.store, Refusals(g.store, c.layout, c.versions, records), records)
  {
    var session := new GroupSession(c.layout, c.of, c.width, g.store, g.cells);
    var policy := new RetentionPolicy(c.versions);
    dispositions := policy.ApplyIn(session, records);
    session.Flush();
    g' := Group(session.Contents(), session.cells);
  }
}
