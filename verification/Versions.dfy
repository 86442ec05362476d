/**
The version store of one partition group and the ordered scans of the storage port.

TAGS and LOGS are ordered by the bytes of their keys. A `Layout` gives the place of
every version in those two orders and in timestamp order; `PhysicalLayout` is the one
of the key codec. Scans are specified by what they return, not by how they look it up.
*/
module Versions {
  import opened ByteOrder
  import opened Codec
  import opened Scan

  datatype Kind = LIVE | TOMBSTONE | STALE | PHANTOM | RESERVED | META
  datatype Tag = Tag(kind: Kind, payload: Bytes)
  datatype Value = Value(data: Bytes, quorum: nat)
  datatype Entry = Entry(tag: Tag, value: Value)
  datatype Record = Record(key: Key, entry: Entry)

  type Store = map<Key, Entry>

  predicate OwnedTag(tag: Tag) {
    tag.kind == LIVE || tag.kind == TOMBSTONE
  }

  predicate Owned(s: Store, k: Key) {
    k in s && OwnedTag(s[k].tag)
  }

  function OwnedKeys(s: Store): set<Key> {
    set k | k in s && OwnedTag(s[k].tag)
  }

  predicate AllOwned(s: Store) {
    forall k :: k in s ==> OwnedTag(s[k].tag)
  }

  function VersionsAt(s: Store, p: Place): set<Key> {
    set k | k in s && PlaceOf(k) == p
  }

  // ---------------------------------------------------------------- layout

  datatype Layout = Layout(tags: Key -> real, logs: Key -> real, hlc: Key -> real)

  /** Two keys share no place in the byte orders, and versions of one address none in time. */
  ghost predicate Apart(o: Layout, j: Key, k: Key) {
    j != k ==>
      o.tags(j) != o.tags(k) && o.logs(j) != o.logs(k) && (PlaceOf(j) == PlaceOf(k) ==> o.hlc(j) != o.hlc(k))
  }

  ghost predicate Lawful(o: Layout) {
    forall j: Key, k: Key :: Apart(o, j, k)
  }

  lemma LawfulInjective(o: Layout, s: set<Key>)
    requires Lawful(o)
    ensures Injective(o.tags, s) && Injective(o.logs, s)
  {
    forall j, k | j in s && k in s
      ensures o.tags(j) == o.tags(k) ==> j == k
      ensures o.logs(j) == o.logs(k) ==> j == k
    {
      assert Apart(o, j, k);
    }
  }

  /** The last version of an address in LOGS order. */
  ghost predicate IsLatest(s: Store, o: Layout, p: Place, k: Key) {
    k in VersionsAt(s, p) && forall j :: j in VersionsAt(s, p) ==> o.logs(j) <= o.logs(k)
  }

  /** LOGS byte order and timestamp order agree on the versions of each address. */
  ghost predicate OrdersAgree(o: Layout, keys: set<Key>) {
    forall j, k :: j in keys && k in keys && PlaceOf(j) == PlaceOf(k) ==>
      (o.logs(j) < o.logs(k) <==> o.hlc(j) < o.hlc(k))
  }

  ghost function HlcRank(t: Timestamp): real {
    (t.wall * 0x1_0000 + t.counter) as real + Rank(t.node)
  }

  lemma HlcRankEmbeds(a: Timestamp, b: Timestamp)
    requires TimestampFits(a) && TimestampFits(b)
    ensures HlcLess(a, b) <==> HlcRank(a) < HlcRank(b)
    ensures HlcRank(a) == HlcRank(b) <==> a == b
  {
    RankEmbeds(a.node, b.node);
    var x, y := a.wall * 0x1_0000 + a.counter, b.wall * 0x1_0000 + b.counter;
    if x < y {
      assert x as real + 1.0 <= y as real;
    } else if y < x {
      assert y as real + 1.0 <= x as real;
    }
  }

  ghost function PhysicalLayout(): Layout {
    Layout((k: Key) => Rank(TagsBytes(k)), (k: Key) => Rank(LogsBytes(k)), (k: Key) => HlcRank(k.ts))
  }

  lemma PhysicalPlacesDiffer(j: Key, k: Key)
    ensures Rank(TagsBytes(j)) == Rank(TagsBytes(k)) ==> j == k
    ensures Rank(LogsBytes(j)) == Rank(LogsBytes(k)) ==> j == k
    ensures PlaceOf(j) == PlaceOf(k) && HlcRank(j.ts) == HlcRank(k.ts) ==> j == k
  {
    RankEmbeds(TagsBytes(j), TagsBytes(k));
    RankEmbeds(LogsBytes(j), LogsBytes(k));
    KeyBytesInjective(j, k);
    HlcRankEmbeds(j.ts, k.ts);
  }

  lemma PhysicalLayoutIsLawful()
    ensures Lawful(PhysicalLayout())
  {
    forall j: Key, k: Key {
      PhysicalPlacesDiffer(j, k);
    }
  }

  /** The physical orders agree exactly when no two versions of an address have inverted node ids. */
  lemma PhysicalOrdersAgree(keys: set<Key>)
    ensures OrdersAgree(PhysicalLayout(), keys) <==>
            forall j, k :: j in keys && k in keys && PlaceOf(j) == PlaceOf(k) ==> !Inverted(j.ts, k.ts)
  {
    var o := PhysicalLayout();
    forall j, k | j in keys && k in keys && PlaceOf(j) == PlaceOf(k)
      ensures (o.logs(j) < o.logs(k) <==> o.hlc(j) < o.hlc(k)) <==> !Inverted(j.ts, k.ts)
    {
      RankEmbeds(LogsBytes(j), LogsBytes(k));
      HlcRankEmbeds(j.ts, k.ts);
      LexCommonPrefix(PlaceBytes(PlaceOf(j)), TimestampBytes(j.ts), TimestampBytes(k.ts));
      ByteOrderIsHlcOrder(j.ts, k.ts);
    }
  }

  // ---------------------------------------------------------------- writes

  /** Write one version unless its key is already stored. */
  function Insert(s: Store, r: Record): Store {
    if r.key in s then s else s[r.key := r.entry]
  }

  function InsertAll(s: Store, rs: seq<Record>): Store {
    if |rs| == 0 then s else Insert(InsertAll(s, rs[..|rs| - 1]), rs[|rs| - 1])
  }

  /** Per record, whether it was written. */
  function Written(s: Store, rs: seq<Record>): (w: seq<bool>)
    ensures |w| == |rs|
  {
    if |rs| == 0 then []
    else Written(s, rs[..|rs| - 1]) + [rs[|rs| - 1].key !in InsertAll(s, rs[..|rs| - 1])]
  }

  /** `t` holds every entry of `s` unchanged. */
  ghost predicate Extends(s: Store, t: Store) {
    forall k :: k in s ==> k in t && t[k] == s[k]
  }

  lemma {:induction false} InsertAllExtends(s: Store, rs: seq<Record>)
    ensures Extends(s, InsertAll(s, rs))
    ensures forall i :: 0 <= i < |rs| ==> rs[i].key in InsertAll(s, rs)
  {
    if |rs| > 0 {
      var init := rs[..|rs| - 1];
      InsertAllExtends(s, init);
      assert forall i :: 0 <= i < |init| ==> init[i] == rs[i];
    }
  }

  lemma {:induction false} InsertAllFromRecords(s: Store, rs: seq<Record>, k: Key)
    requires k in InsertAll(s, rs) && k !in s
    ensures Record(k, InsertAll(s, rs)[k]) in rs
  {
    var init, last := rs[..|rs| - 1], rs[|rs| - 1];
    if k in InsertAll(s, init) {
      InsertAllFromRecords(s, init, k);
    } else {
      assert rs[|rs| - 1] == Record(k, InsertAll(s, rs)[k]);
    }
  }

  function CountTrue(w: seq<bool>): (n: nat)
    ensures n <= |w|
  {
    if |w| == 0 then 0 else CountTrue(w[..|w| - 1]) + (if w[|w| - 1] then 1 else 0)
  }

  /** As many versions are reported written as the store gained. */
  lemma {:induction false} WrittenCounts(s: Store, rs: seq<Record>)
    ensures |InsertAll(s, rs)| == |s| + CountTrue(Written(s, rs))
  {
    if |rs| > 0 {
      var init := rs[..|rs| - 1];
      WrittenCounts(s, init);
      var t, k := InsertAll(s, init), rs[|rs| - 1].key;
      var w := Written(s, rs);
      assert w[..|w| - 1] == Written(s, init);
      if k !in t {
        assert InsertAll(s, rs).Keys == t.Keys + {k};
      }
    }
  }
}
