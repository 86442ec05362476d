/**
Two replicas of one partition, and what an anti-entropy session may do to them:
each side only gains versions the other side owns.
*/
module Replicas {
  import opened ByteOrder
  import opened Codec
  import opened Scan
  import opened Versions
  import opened Digest
  import opened Session
  import opened Retention

  datatype Pair = Pair(local: Store, remote: Store)

  /** One partition, which sides are target replicas of it, and the buckets that were misjudged. */
  datatype Mode = Mode(config: Config, pid: int, cutoff: int, pushable: bool, pullable: bool, ghost blind: set<int>)

  function BucketOfKey(m: Mode, k: Key): int
    requires m.config.width > 0
  {
    k.ts.wall / m.config.width
  }

  /** Versions of the partition that either side owns. */
  function Known(p: Pair, m: Mode): set<Key> {
    set k | k in OwnedKeys(p.local) + OwnedKeys(p.remote) && k.pid == m.pid
  }

  ghost predicate Held(s: Store, m: Mode, k: Key) {
    k in s || Superseded(s, m.config.layout, m.config.versions, k)
  }

  /** Every side that should hold the version does, or is past it. */
  ghost predicate Settled(p: Pair, m: Mode, k: Key) {
    (m.pushable ==> Held(p.remote, m, k)) && (m.pullable ==> Held(p.local, m, k))
  }

  /** `t` is `s` plus versions of the partition that `other` owns, if it may gain any. */
  ghost predicate Gains(s: Store, t: Store, other: Store, m: Mode, open: bool) {
    && Extends(s, t)
    && forall k :: k in t && k !in s ==> open && k.pid == m.pid && Owned(other, k) && t[k] == other[k]
  }

  /** Nothing is lost, and each side gains only what the other owned, and nothing unless it is a target replica. */
  ghost predicate Grows(p: Pair, q: Pair, m: Mode) {
    Gains(p.local, q.local, p.remote, m, m.pullable) && Gains(p.remote, q.remote, p.local, m, m.pushable)
  }

  /** Only versions of one bucket were gained. */
  ghost predicate Confined(p: Pair, q: Pair, m: Mode, bucket: int)
    requires m.config.width > 0
  {
    && (forall k :: k in q.local && k !in p.local ==> BucketOfKey(m, k) == bucket)
    && (forall k :: k in q.remote && k !in p.remote ==> BucketOfKey(m, k) == bucket)
  }

  lemma GrowsTransitive(p: Pair, q: Pair, r: Pair, m: Mode)
    requires Grows(p, q, m) && Grows(q, r, m)
    ensures Grows(p, r, m)
  {
    GainsThrough(p.local, q.local, r.local, p.remote, q.remote, m, m.pullable, m.pushable);
    GainsThrough(p.remote, q.remote, r.remote, p.local, q.local, m, m.pushable, m.pullable);
  }

  /** What a side gains later the other already owned at first: it cannot be something that came from this side. */
  lemma GainsThrough(s: Store, t: Store, u: Store, other: Store, later: Store, m: Mode, open: bool, back: bool)
    requires Gains(s, t, other, m, open) && Gains(other, later, s, m, back) && Gains(t, u, later, m, open)
    ensures Gains(s, u, other, m, open)
  {
  }

  lemma GrowsKeepsUnion(p: Pair, q: Pair, m: Mode)
    requires Grows(p, q, m)
    ensures q.local.Keys + q.remote.Keys == p.local.Keys + p.remote.Keys
  {
  }

  lemma GrowsKeepsOwned(p: Pair, q: Pair, m: Mode)
    requires Grows(p, q, m)
    ensures OwnedKeys(q.local) + OwnedKeys(q.remote) == OwnedKeys(p.local) + OwnedKeys(p.remote)
  {
  }

  lemma GrowsKeepsKnown(p: Pair, q: Pair, m: Mode)
    requires Grows(p, q, m)
    ensures Known(q, m) == Known(p, m)
  {
    GrowsKeepsOwned(p, q, m);
  }

  lemma GrowsKeepsSettled(p: Pair, q: Pair, m: Mode, k: Key)
    requires Grows(p, q, m) && Settled(p, m, k)
    ensures Settled(q, m, k)
  {
    var o, n := m.config.layout, m.config.versions;
    if Superseded(p.local, o, n, k) {
      SupersededStays(p.local, q.local, o, n, k);
    }
    if Superseded(p.remote, o, n, k) {
      SupersededStays(p.remote, q.remote, o, n, k);
    }
  }

  // ------------------------------------------------------------- progress

  /** A budget checkpoint: whole buckets before `bucket`, and the keys of `bucket` up to `key`. */
  datatype Position = Position(bucket: int, key: Option<real>)

  ghost predicate Passed(m: Mode, pos: Position, k: Key)
    requires m.config.width > 0
  {
    || BucketOfKey(m, k) < pos.bucket
    || (BucketOfKey(m, k) == pos.bucket && pos.key.Some? && m.config.layout.tags(k) <= pos.key.value)
  }

  /** Known versions old enough to be compared, except in buckets that were misjudged. */
  ghost function Eligible(p: Pair, m: Mode): set<Key> {
    set k | k in Known(p, m) && k.ts.wall <= m.cutoff && (m.config.width > 0 ==> BucketOfKey(m, k) !in m.blind)
  }

  /** The checkpoint only covers versions already settled. */
  ghost predicate Covered(p: Pair, m: Mode, pos: Position)
    requires m.config.width > 0
  {
    forall k :: k in Eligible(p, m) && Passed(m, pos, k) ==> Settled(p, m, k)
  }

  /** Every eligible version of the buckets before `bucket` is settled. */
  ghost predicate SettledBelow(p: Pair, m: Mode, bucket: int)
    requires m.config.width > 0
  {
    forall k :: k in Eligible(p, m) && BucketOfKey(m, k) < bucket ==> Settled(p, m, k)
  }

  ghost predicate AllSettled(p: Pair, m: Mode) {
    forall k :: k in Eligible(p, m) ==> Settled(p, m, k)
  }

  lemma GrowsKeepsProgress(p: Pair, q: Pair, m: Mode, pos: Position, bucket: int)
    requires m.config.width > 0 && Grows(p, q, m)
    ensures Covered(p, m, pos) ==> Covered(q, m, pos)
    ensures SettledBelow(p, m, bucket) ==> SettledBelow(q, m, bucket)
  {
    GrowsKeepsKnown(p, q, m);
    forall k | k in Eligible(q, m) && Settled(p, m, k)
      ensures Settled(q, m, k)
    {
      GrowsKeepsSettled(p, q, m, k);
    }
  }

  /** Every eligible version of `bucket` up to `at` is settled. */
  ghost predicate SettledUpTo(p: Pair, m: Mode, bucket: int, at: real)
    requires m.config.width > 0
  {
    forall k :: k in Eligible(p, m) && BucketOfKey(m, k) == bucket && m.config.layout.tags(k) <= at ==> Settled(p, m, k)
  }

  lemma GrowsKeepsSettledUpTo(p: Pair, q: Pair, m: Mode, bucket: int, at: real)
    requires m.config.width > 0 && Grows(p, q, m) && SettledUpTo(p, m, bucket, at)
    ensures SettledUpTo(q, m, bucket, at)
  {
    GrowsKeepsKnown(p, q, m);
    forall k | k in Eligible(q, m) && Settled(p, m, k)
      ensures Settled(q, m, k)
    {
      GrowsKeepsSettled(p, q, m, k);
    }
  }

  /** A key checkpoint is what the buckets before it and its own bucket have settled. */
  lemma CoveredMeans(p: Pair, m: Mode, bucket: int, at: real)
    requires m.config.width > 0
    ensures Covered(p, m, Position(bucket, None)) <==> SettledBelow(p, m, bucket)
    ensures Covered(p, m, Position(bucket, Some(at))) <==> SettledBelow(p, m, bucket) && SettledUpTo(p, m, bucket, at)
  {
  }

  /** The listed keys include every eligible version of `bucket` in the window after `from`. */
  ghost predicate Complete(p: Pair, m: Mode, bucket: int, from: real, cursor: Option<real>, stop: real, listed: set<Key>)
    requires m.config.width > 0
  {
    forall k :: k in Eligible(p, m) && BucketOfKey(m, k) == bucket ==>
      m.config.layout.tags(k) > from && Within(m.config.layout, k, cursor, stop) ==> k in listed
  }

  /** Settling the next listed keys, in order, moves the frontier to the last of them. */
  lemma FrontierAdvances(p: Pair, m: Mode, bucket: int, from: real, cursor: Option<real>, stop: real,
                         ordered: seq<Key>, i: nat, j: nat)
    requires m.config.width > 0 && i < j <= |ordered| && Ascending(ordered, m.config.layout.tags)
    requires Complete(p, m, bucket, from, cursor, stop, set k | k in ordered)
    requires forall k :: k in ordered ==> Within(m.config.layout, k, cursor, stop)
    requires SettledUpTo(p, m, bucket, if i == 0 then from else m.config.layout.tags(ordered[i - 1]))
    requires i > 0 ==> SettledUpTo(p, m, bucket, from)
    requires forall x :: i <= x < j ==> Settled(p, m, ordered[x])
    ensures SettledUpTo(p, m, bucket, m.config.layout.tags(ordered[j - 1]))
  {
    var o := m.config.layout;
    forall k | k in Eligible(p, m) && BucketOfKey(m, k) == bucket && o.tags(k) <= o.tags(ordered[j - 1])
      ensures Settled(p, m, k)
    {
      if o.tags(k) > from {
        assert ordered[j - 1] in ordered;
        assert Within(o, k, cursor, stop);
        assert k in ordered;
        var x :| 0 <= x < |ordered| && ordered[x] == k;
        assert x < j;
        if x < i {
          assert o.tags(k) <= o.tags(ordered[i - 1]);
        }
      }
    }
  }

  /** Every eligible version of `bucket` up to the end of a window is settled. */
  ghost predicate WindowDone(p: Pair, m: Mode, bucket: int, cursor: Option<real>, stop: real)
    requires m.config.width > 0
  {
    forall k :: k in Eligible(p, m) && BucketOfKey(m, k) == bucket ==>
      Within(m.config.layout, k, cursor, stop) ==> Settled(p, m, k)
  }

  /** Once every listed key is settled, so is the whole window. */
  lemma WindowSettled(p: Pair, m: Mode, bucket: int, from: real, cursor: Option<real>, stop: real, ordered: seq<Key>)
    requires m.config.width > 0
    requires Complete(p, m, bucket, from, cursor, stop, set k | k in ordered)
    requires SettledUpTo(p, m, bucket, from)
    requires forall k :: k in ordered ==> Settled(p, m, k)
    ensures WindowDone(p, m, bucket, cursor, stop)
  {
    forall k | k in Eligible(p, m) && BucketOfKey(m, k) == bucket && Within(m.config.layout, k, cursor, stop)
      ensures Settled(p, m, k)
    {
      if m.config.layout.tags(k) > from {
        assert k in ordered;
      }
    }
  }

  /** The first `i` listed keys are settled, and so is everything before them. */
  ghost predicate Merging(p: Pair, m: Mode, bucket: int, from: real, ordered: seq<Key>, i: nat)
    requires m.config.width > 0 && i <= |ordered|
  {
    && SettledBelow(p, m, bucket) && SettledUpTo(p, m, bucket, from)
    && SettledUpTo(p, m, bucket, if i == 0 then from else m.config.layout.tags(ordered[i - 1]))
    && forall x :: 0 <= x < i ==> Settled(p, m, ordered[x])
  }

  lemma GrowsKeepsComplete(p: Pair, q: Pair, m: Mode, bucket: int, from: real, cursor: Option<real>, stop: real, listed: set<Key>)
    requires m.config.width > 0 && Grows(p, q, m) && Complete(p, m, bucket, from, cursor, stop, listed)
    ensures Complete(q, m, bucket, from, cursor, stop, listed)
  {
    GrowsKeepsKnown(p, q, m);
  }

  lemma MergingAdvances(p: Pair, q: Pair, m: Mode, bucket: int, from: real, cursor: Option<real>, stop: real,
                        ordered: seq<Key>, i: nat, j: nat)
    requires m.config.width > 0 && i < j <= |ordered| && Ascending(ordered, m.config.layout.tags)
    requires Grows(p, q, m) && Merging(p, m, bucket, from, ordered, i)
    requires Complete(p, m, bucket, from, cursor, stop, set k | k in ordered)
    requires forall k :: k in ordered ==> Within(m.config.layout, k, cursor, stop)
    requires forall x :: i <= x < j ==> Settled(q, m, ordered[x])
    ensures Merging(q, m, bucket, from, ordered, j)
  {
    var at := if i == 0 then from else m.config.layout.tags(ordered[i - 1]);
    GrowsKeepsComplete(p, q, m, bucket, from, cursor, stop, set k | k in ordered);
    GrowsKeepsProgress(p, q, m, Position(bucket, None), bucket);
    GrowsKeepsSettledUpTo(p, q, m, bucket, from);
    GrowsKeepsSettledUpTo(p, q, m, bucket, at);
    forall x | 0 <= x < i
      ensures Settled(q, m, ordered[x])
    {
      GrowsKeepsSettled(p, q, m, ordered[x]);
    }
    FrontierAdvances(q, m, bucket, from, cursor, stop, ordered, i, j);
  }

  lemma ConfinedJoins(p: Pair, q: Pair, r: Pair, m: Mode, bucket: int)
    requires m.config.width > 0 && Grows(p, q, m) && Grows(q, r, m)
    requires Confined(p, q, m, bucket) && Confined(q, r, m, bucket)
    ensures Confined(p, r, m, bucket)
  {
  }

  /** A window being merged: its keys in order, the first `i` of them settled. */
  ghost predicate WindowAt(origin: Pair, p: Pair, m: Mode, bucket: int, from: real, cursor: Option<real>, stop: real,
                           ordered: seq<Key>, i: nat)
    requires m.config.width > 0
  {
    && i <= |ordered| && Ascending(ordered, m.config.layout.tags)
    && (forall k :: k in ordered ==> Within(m.config.layout, k, cursor, stop))
    && Grows(origin, p, m) && Confined(origin, p, m, bucket)
    && Complete(p, m, bucket, from, cursor, stop, set k | k in ordered)
    && Merging(p, m, bucket, from, ordered, i)
  }

  /** What copying keys of one bucket keeps, complete or not. */
  lemma ChunkMerged(origin: Pair, p: Pair, q: Pair, m: Mode, bucket: int, pos: Position, ordered: seq<Key>, i: nat, j: nat)
    requires m.config.width > 0 && i <= j <= |ordered|
    requires Grows(origin, p, m) && Confined(origin, p, m, bucket) && Grows(p, q, m)
    requires forall k :: k in q.local && k !in p.local ==> k in ordered[i..j]
    requires forall k :: k in q.remote && k !in p.remote ==> k in ordered[i..j]
    requires forall k :: k in ordered ==> BucketOfKey(m, k) == bucket
    requires Covered(p, m, pos)
    ensures Grows(origin, q, m) && Confined(origin, q, m, bucket) && Covered(q, m, pos)
  {
    GrowsTransitive(origin, p, q, m);
    GrowsKeepsProgress(p, q, m, pos, bucket);
    assert Confined(p, q, m, bucket);
    ConfinedJoins(origin, p, q, m, bucket);
  }

  /** A settled chunk moves the window and the checkpoint to its last key. */
  lemma WindowAdvances(origin: Pair, p: Pair, q: Pair, m: Mode, bucket: int, from: real, cursor: Option<real>, stop: real,
                       ordered: seq<Key>, i: nat, j: nat)
    requires m.config.width > 0 && i < j <= |ordered| && WindowAt(origin, p, m, bucket, from, cursor, stop, ordered, i)
    requires Grows(p, q, m) && Grows(origin, q, m) && Confined(origin, q, m, bucket)
    requires forall k :: k in ordered[i..j] ==> Settled(q, m, k)
    ensures WindowAt(origin, q, m, bucket, from, cursor, stop, ordered, j)
    ensures Covered(q, m, Position(bucket, Some(m.config.layout.tags(ordered[j - 1]))))
  {
    GrowsKeepsComplete(p, q, m, bucket, from, cursor, stop, set k | k in ordered);
    forall x | i <= x < j
      ensures Settled(q, m, ordered[x])
    {
      assert ordered[x] in ordered[i..j];
    }
    MergingAdvances(p, q, m, bucket, from, cursor, stop, ordered, i, j);
    CoveredMeans(q, m, bucket, m.config.layout.tags(ordered[j - 1]));
  }

  /** Two complete pages, cut at the sooner end, list every eligible version of the window. */
  lemma PagesComplete(p: Pair, m: Mode, bucket: int, from: real, lc: Option<real>, rc: Option<real>, stop: real)
    requires m.config.width > 0
    requires lc.Some? ==> lc.value < stop
    requires rc.Some? ==> rc.value < stop
    ensures Complete(p, m, bucket, from, Sooner(rc, lc), stop,
                     Window(p.local, m, from, lc, stop) + Window(p.remote, m, from, rc, stop))
  {
  }

  lemma HeldStays(s: Store, t: Store, m: Mode, k: Key)
    requires Extends(s, t) && Held(s, m, k)
    ensures Held(t, m, k)
  {
    if k !in s {
      SupersededStays(s, t, m.config.layout, m.config.versions, k);
    }
  }

  /** Versions of the partition that are still ahead of a cursor. */
  function Ahead(p: Pair, m: Mode, at: real): set<Key> {
    set k | k in p.local.Keys + p.remote.Keys && k.pid == m.pid && m.config.layout.tags(k) > at
  }

  lemma AheadShrinks(p: Pair, q: Pair, m: Mode, at: real, next: real)
    requires Grows(p, q, m) && at < next
    requires exists k :: k in Ahead(p, m, at) && m.config.layout.tags(k) == next
    ensures Ahead(q, m, next) < Ahead(p, m, at)
  {
    GrowsKeepsUnion(p, q, m);
    var k :| k in Ahead(p, m, at) && m.config.layout.tags(k) == next;
    assert k !in Ahead(q, m, next);
  }

  // --------------------------------------------------------- checkpoints

  /** What is stored for the partition and the checkpoint has not passed, owned or not. */
  ghost function Pending(p: Pair, m: Mode, pos: Position): set<Key>
    requires m.config.width > 0
  {
    set k | k in p.local.Keys + p.remote.Keys && k.pid == m.pid && !Passed(m, pos, k)
  }

  predicate NoFurther(a: Position, b: Position) {
    || a.bucket < b.bucket
    || (a.bucket == b.bucket && (a.key.None? || (b.key.Some? && a.key.value <= b.key.value)))
  }

  /** A checkpoint that moves on leaves no more before it, although the sides grew. */
  lemma PendingShrinks(p: Pair, q: Pair, m: Mode, pos: Position, pos': Position)
    requires m.config.width > 0 && Grows(p, q, m) && NoFurther(pos, pos')
    ensures Pending(q, m, pos') <= Pending(p, m, pos)
  {
    GrowsKeepsUnion(p, q, m);
  }

  /** One that passes another stored version leaves strictly less. */
  lemma PendingDrops(p: Pair, q: Pair, m: Mode, pos: Position, pos': Position, k: Key)
    requires m.config.width > 0 && Grows(p, q, m) && NoFurther(pos, pos')
    requires k in Pending(p, m, pos) && Passed(m, pos', k)
    ensures Pending(q, m, pos') < Pending(p, m, pos)
  {
    PendingShrinks(p, q, m, pos, pos');
    assert k !in Pending(q, m, pos');
  }

  /** A key checkpoint names a version of its bucket that may be compared. */
  ghost predicate AtHome(m: Mode, pos: Position)
    requires m.config.width > 0
  {
    pos.key.Some? ==>
      exists k: Key :: k.pid == m.pid && BucketOfKey(m, k) == pos.bucket && k.ts.wall <= m.cutoff && m.config.layout.tags(k) == pos.key.value
  }

  // ------------------------------------------------------ misjudged buckets

  /** The same session, with more buckets set aside. */
  ghost predicate Blinder(m: Mode, m': Mode) {
    m' == m.(blind := m'.blind) && m.blind <= m'.blind
  }

  /** Setting buckets aside asks for less, and moves nothing. */
  lemma BlinderKeeps(p: Pair, q: Pair, m: Mode, m': Mode, pos: Position, bucket: int)
    requires m.config.width > 0 && Blinder(m, m')
    ensures Eligible(p, m') <= Eligible(p, m)
    ensures Covered(p, m, pos) ==> Covered(p, m', pos)
    ensures SettledBelow(p, m, bucket) ==> SettledBelow(p, m', bucket)
    ensures Grows(p, q, m) <==> Grows(p, q, m')
    ensures Confined(p, q, m, bucket) <==> Confined(p, q, m', bucket)
    ensures Pending(p, m', pos) == Pending(p, m, pos)
    ensures AtHome(m, pos) ==> AtHome(m', pos)
  {
  }

  // --------------------------------------------------------------- digests

  /** Fingerprint of the owned versions of one bucket. */
  ghost function BucketSum(s: Store, m: Mode, bucket: int): Cell
    requires m.config.width > 0
  {
    Sum(m.config.of, InBucket(s, m, bucket))
  }

  lemma ConfinedKeepsOtherMembers(p: Pair, q: Pair, m: Mode, bucket: int, other: int)
    requires m.config.width > 0 && Grows(p, q, m) && Confined(p, q, m, bucket) && other != bucket
    ensures InBucket(q.local, m, other) == InBucket(p.local, m, other)
    ensures InBucket(q.remote, m, other) == InBucket(p.remote, m, other)
  {
  }

  /** Owned versions of one bucket. */
  ghost function InBucket(s: Store, m: Mode, bucket: int): set<Key>
    requires m.config.width > 0
  {
    Members(OwnedKeys(s), Bucket(m.pid, bucket), m.config.width)
  }

  /** Those of them old enough to be compared. */
  ghost function InPart(s: Store, m: Mode, bucket: int): set<Key>
    requires m.config.width > 0
  {
    set k | k in InBucket(s, m, bucket) && k.ts.wall <= m.cutoff
  }

  /** Different sets with one fingerprint. */
  ghost predicate Mistaken(m: Mode, s: set<Key>, t: set<Key>) {
    s != t && Sum(m.config.of, s) == Sum(m.config.of, t)
  }

  /** The sides own different versions of the bucket, or of the part that may be compared, with one fingerprint. */
  ghost predicate Misjudged(p: Pair, m: Mode, bucket: int)
    requires m.config.width > 0
  {
    || Mistaken(m, InBucket(p.local, m, bucket), InBucket(p.remote, m, bucket))
    || Mistaken(m, InPart(p.local, m, bucket), InPart(p.remote, m, bucket))
  }

  /** Only a bucket whose fingerprints collide right now is set aside. */
  ghost predicate Excused(p: Pair, m: Mode)
    requires m.config.width > 0
  {
    forall b :: b in m.blind ==> Misjudged(p, m, b)
  }

  /** Work on another bucket leaves a misjudged one as it is. */
  lemma ExcusedStays(p: Pair, q: Pair, m: Mode, bucket: int)
    requires m.config.width > 0 && Grows(p, q, m) && Confined(p, q, m, bucket) && bucket !in m.blind && Excused(p, m)
    ensures Excused(q, m)
  {
    forall b | b in m.blind
      ensures Misjudged(q, m, b)
    {
      ConfinedKeepsOtherMembers(p, q, m, bucket, b);
      assert InPart(q.local, m, b) == InPart(p.local, m, b);
      assert InPart(q.remote, m, b) == InPart(p.remote, m, b);
    }
  }

  /** What a session from `p` that ended normally in `q` means for one version of the partition, unless its bucket is misjudged. */
  lemma SessionMeaning(p: Pair, q: Pair, m: Mode, k: Key)
    requires m.config.width > 0 && Grows(p, q, m) && AllSettled(q, m) && Excused(q, m)
    requires k.pid == m.pid && k.ts.wall <= m.cutoff && !Misjudged(q, m, BucketOfKey(m, k))
    ensures Owned(p.local, k) && m.pushable ==> k in q.remote || Superseded(q.remote, m.config.layout, m.config.versions, k)
    ensures Owned(p.remote, k) && m.pullable ==> k in q.local || Superseded(q.local, m.config.layout, m.config.versions, k)
    ensures k in p.local ==> k in q.local && q.local[k] == p.local[k]
    ensures k in p.remote ==> k in q.remote && q.remote[k] == p.remote[k]
    ensures k in q.local || k in q.remote ==> k in p.local || k in p.remote
    ensures (!m.pushable ==> q.remote == p.remote) && (!m.pullable ==> q.local == p.local)
  {
    GrowsKeepsKnown(p, q, m);
    if Owned(p.local, k) || Owned(p.remote, k) {
      assert k in Known(p, m) && k in Eligible(q, m);
    }
  }

  /**
  The proviso is needed: two versions of one bucket with one hash, one on each side, pass for equal
  while neither side has the other's.
  */
  lemma CollisionHides(m: Mode, k: Key, e: Entry, l: Key, f: Entry)
    requires m.config.width > 0 && m.config.versions >= 1 && m.pushable && m.pullable
    requires k.pid == m.pid && l.pid == m.pid && k.address != l.address && BucketOfKey(m, k) == BucketOfKey(m, l)
    requires OwnedTag(e.tag) && OwnedTag(f.tag) && m.config.of(k) == m.config.of(l)
    ensures var p, bucket := Pair(map[k := e], map[l := f]), BucketOfKey(m, k);
            BucketSum(p.local, m, bucket) == BucketSum(p.remote, m, bucket) && !Settled(p, m, k) && !Settled(p, m, l)
  {
    var p, bucket := Pair(map[k := e], map[l := f]), BucketOfKey(m, k);
    assert InBucket(p.local, m, bucket) == {k} && InBucket(p.remote, m, bucket) == {l};
    SumInsert(m.config.of, {}, k);
    SumInsert(m.config.of, {}, l);
    assert {} + {k} == {k} && {} + {l} == {l};
    assert NewerThan(p.remote, m.config.layout, k) == {} && NewerThan(p.local, m.config.layout, l) == {};
  }

  /** The buckets set aside once two sets of one fingerprint were taken for equal. */
  ghost function Fooled(m: Mode, bucket: int, s: set<Key>, t: set<Key>): set<int> {
    if s == t then m.blind else m.blind + {bucket}
  }

  /** Equal fingerprints settle a bucket, provided they mean that both sides own the same versions of it. */
  lemma EqualSumsSettle(p: Pair, m: Mode, bucket: int, k: Key)
    requires m.config.width > 0 && BucketSum(p.local, m, bucket) == BucketSum(p.remote, m, bucket)
    requires !Mistaken(m, InBucket(p.local, m, bucket), InBucket(p.remote, m, bucket))
    requires k in Known(p, m) && BucketOfKey(m, k) == bucket
    ensures Settled(p, m, k)
  {
    var mine, theirs := InBucket(p.local, m, bucket), InBucket(p.remote, m, bucket);
    assert k in mine || k in theirs;
  }

  // ---------------------------------------------------------------- windows

  /** End of a page: a physical key it reached, or the end of the range. */
  predicate Within(o: Layout, k: Key, cursor: Option<real>, stop: real) {
    if cursor.Some? then o.tags(k) <= cursor.value else o.tags(k) < stop
  }

  /** Owned versions of the partition after `start`, up to the end of a page. */
  function Window(s: Store, m: Mode, start: real, cursor: Option<real>, stop: real): set<Key> {
    set k | k in OwnedKeys(s) && k.pid == m.pid && m.config.layout.tags(k) > start
            && Within(m.config.layout, k, cursor, stop)
  }

  /** Versions of the partition after a cursor, owned or not. */
  function After(s: Store, m: Mode, start: real): set<Key> {
    set k | k in s && k.pid == m.pid && m.config.layout.tags(k) > start
  }

  /**
  Owned versions among the next entries, and where to go on: at the last entry looked at, owned
  or not, unless the range ended first.
  */
  method OwnedPage(s: Store, m: Mode, start: real, stop: real, limit: nat) returns (keys: set<Key>, cursor: Option<real>)
    requires Lawful(m.config.layout) && limit >= 1
    ensures keys == Window(s, m, start, cursor, stop) && |keys| <= limit
    ensures cursor.Some? ==>
              && start < cursor.value < stop
              && exists k :: k in After(s, m, start) && m.config.layout.tags(k) == cursor.value
    ensures cursor.Some? ==> |set k | k in After(s, m, start) && m.config.layout.tags(k) <= cursor.value| == limit
  {
    var o := m.config.layout;
    LawfulInjective(o, After(s, m, start));
    var page := First(After(s, m, start), o.tags, limit);
    var n;
    keys, n := TakeOwned(s, o, page, stop);
    if n < |page| {
      PageCut(s, m, start, stop, limit, page, n);
      cursor := None;
    } else {
      PageWhole(s, m, start, stop, limit, page);
      cursor := if |page| == limit then Some(o.tags(page[|page| - 1])) else None;
      assert |page| == limit ==> page[|page| - 1] in After(s, m, start);
      if |page| == limit {
        PageEntries(s, m, start, limit, page);
      }
    }
  }

  /** A full page holds exactly the entries up to its last one. */
  lemma PageEntries(s: Store, m: Mode, start: real, limit: nat, page: seq<Key>)
    requires limit >= 1 && |page| == limit && IsFirst(page, After(s, m, start), m.config.layout.tags, limit)
    ensures |set k | k in After(s, m, start) && m.config.layout.tags(k) <= m.config.layout.tags(page[limit - 1])| == limit
  {
    var last := m.config.layout.tags(page[limit - 1]);
    var entries := set k | k in After(s, m, start) && m.config.layout.tags(k) <= last;
    forall k | k in page
      ensures k in entries
    {
      var i :| 0 <= i < |page| && page[i] == k;
      assert i < limit - 1 ==> m.config.layout.tags(page[i]) < m.config.layout.tags(page[limit - 1]);
    }
    assert entries == set k | k in page;
    assert Distinct(page);
    ListedSize(page);
  }

  /** The owned versions of the entries of a page before `stop`, and how many such entries there are. */
  method TakeOwned(s: Store, o: Layout, page: seq<Key>, stop: real) returns (keys: set<Key>, n: nat)
    requires forall k :: k in page ==> k in s
    ensures n <= |page| && keys == OwnedAmong(s, page[..n]) && |keys| <= n
    ensures forall j :: 0 <= j < n ==> o.tags(page[j]) < stop
    ensures n < |page| ==> o.tags(page[n]) >= stop
    ensures n == |page| ==> keys == OwnedAmong(s, page)
  {
    keys, n := {}, 0;
    while n < |page| && o.tags(page[n]) < stop
      invariant n <= |page| && keys == OwnedAmong(s, page[..n])
      invariant forall j :: 0 <= j < n ==> o.tags(page[j]) < stop
    {
      assert page[n] in page && page[..n + 1] == page[..n] + [page[n]];
      OwnedAmongGain(s, page[..n], page[n]);
      if OwnedTag(s[page[n]].tag) {
        keys := keys + {page[n]};
      }
      n := n + 1;
    }
    OwnedAmongSize(s, page[..n]);
    assert page[..|page|] == page;
  }

  lemma PageCut(s: Store, m: Mode, start: real, stop: real, limit: nat, page: seq<Key>, i: nat)
    requires IsFirst(page, After(s, m, start), m.config.layout.tags, limit) && i < |page|
    requires m.config.layout.tags(page[i]) >= stop
    requires forall j :: 0 <= j < i ==> m.config.layout.tags(page[j]) < stop
    ensures OwnedAmong(s, page[..i]) == Window(s, m, start, None, stop)
  {
    forall k | k in Window(s, m, start, None, stop)
      ensures k in page[..i]
    {
      assert k in After(s, m, start);
      var j :| 0 <= j < |page| && page[j] == k;
      assert j < i;
      assert page[..i][j] == k;
    }
  }

  lemma PageWhole(s: Store, m: Mode, start: real, stop: real, limit: nat, page: seq<Key>)
    requires limit >= 1 && IsFirst(page, After(s, m, start), m.config.layout.tags, limit)
    requires forall j :: 0 <= j < |page| ==> m.config.layout.tags(page[j]) < stop
    ensures var cursor := if |page| == limit then Some(m.config.layout.tags(page[|page| - 1])) else None;
            OwnedAmong(s, page) == Window(s, m, start, cursor, stop)
  {
    var o := m.config.layout;
    var cursor := if |page| == limit then Some(o.tags(page[|page| - 1])) else None;
    forall k | k in Window(s, m, start, cursor, stop)
      ensures k in page
    {
      assert k in After(s, m, start);
    }
    forall k | k in page && Owned(s, k)
      ensures k in Window(s, m, start, cursor, stop)
    {
      assert k in After(s, m, start);
      var j :| 0 <= j < |page| && page[j] == k;
    }
  }

  function Sooner(a: Option<real>, b: Option<real>): Option<real> {
    if a.None? then b
    else if b.None? then a
    else if a.value <= b.value then a else b
  }

  /** Consecutive windows tile the range: nothing is listed twice or missed. */
  lemma WindowsJoin(s: Store, m: Mode, start: real, cursor: real, next: Option<real>, stop: real)
    requires start <= cursor
    requires next.Some? ==> cursor < next.value < stop
    requires cursor < stop || next == None
    ensures Window(s, m, start, Some(cursor), stop) !! Window(s, m, cursor, next, stop)
    ensures cursor < stop ==>
              Window(s, m, start, Some(cursor), stop) + Window(s, m, cursor, next, stop) == Window(s, m, start, next, stop)
  {
  }

  lemma AfterShrinks(s: Store, m: Mode, cursor: real, next: real)
    requires cursor < next && exists k :: k in After(s, m, cursor) && m.config.layout.tags(k) == next
    ensures After(s, m, next) < After(s, m, cursor)
  {
    var k :| k in After(s, m, cursor) && m.config.layout.tags(k) == next;
    assert k !in After(s, m, next);
  }

  /** A range digest is folded page by page. */
  method RangeDigest(s: Store, m: Mode, start: real, stop: real, limit: nat) returns (cell: Cell)
    requires Lawful(m.config.layout) && limit >= 1 && start < stop
    ensures cell == Sum(m.config.of, Window(s, m, start, None, stop))
  {
    cell := EMPTY;
    var cursor := Some(start);
    ghost var done: set<Key> := {};
    while cursor.Some?
      invariant done == Window(s, m, start, cursor, stop)
      invariant cursor.Some? ==> start <= cursor.value < stop
      invariant cell == Sum(m.config.of, done)
      decreases cursor.Some?, if cursor.Some? then After(s, m, cursor.value) else {}
    {
      var keys, next := OwnedPage(s, m, cursor.value, stop, limit);
      WindowsJoin(s, m, start, cursor.value, next, stop);
      SumUnion(m.config.of, done, keys);
      var page := FoldKeys(keys, m);
      cell := Add(cell, page);
      done := done + keys;
      if next.Some? {
        AfterShrinks(s, m, cursor.value, next.value);
      }
      cursor := next;
    }
  }

  method FoldKeys(keys: set<Key>, m: Mode) returns (cell: Cell)
    ensures cell == Sum(m.config.of, keys)
  {
    cell := EMPTY;
    var rest := keys;
    while rest != {}
      invariant rest <= keys && cell == Sum(m.config.of, keys - rest)
      decreases rest
    {
      var k :| k in rest;
      SumInsert(m.config.of, keys - rest, k);
      cell := Add(cell, m.config.of(k));
      assert keys - (rest - {k}) == (keys - rest) + {k};
      rest := rest - {k};
    }
    assert keys - rest == keys;
  }

  // ---------------------------------------------------------- time bounds

  /** `bound(w)` is the place of the TAGS bound `pid | w`. */
  ghost predicate BoundsSeparate(m: Mode, bound: int -> real) {
    && (forall k: Key, w: int :: k.pid == m.pid && 0 <= w < 0x1_0000_0000_0000_0000 ==>
          && (bound(w) < m.config.layout.tags(k) <==> w <= k.ts.wall)
          && (m.config.layout.tags(k) < bound(w) <==> k.ts.wall < w))
    && (forall v: int, w: int :: 0 <= v < w < 0x1_0000_0000_0000_0000 ==> bound(v) < bound(w))
  }

  /** The codec's bounds do separate. */
  lemma PhysicalBoundsSeparate(m: Mode, bound: int -> real)
    requires m.config.layout == PhysicalLayout() && 0 <= m.pid < 0x1_0000_0000
    requires forall w :: 0 <= w < 0x1_0000_0000_0000_0000 ==> bound(w) == Rank(WallBound(m.pid, w))
    ensures BoundsSeparate(m, bound)
  {
    forall k: Key, w: int | k.pid == m.pid && 0 <= w < 0x1_0000_0000_0000_0000
      ensures bound(w) < m.config.layout.tags(k) <==> w <= k.ts.wall
      ensures m.config.layout.tags(k) < bound(w) <==> k.ts.wall < w
    {
      WallBoundSeparates(k, w);
      RankEmbeds(WallBound(m.pid, w), TagsBytes(k));
      RankEmbeds(TagsBytes(k), WallBound(m.pid, w));
    }
    forall v: int, w: int | 0 <= v < w < 0x1_0000_0000_0000_0000
      ensures bound(v) < bound(w)
    {
      WallBoundOrder(m.pid, v, w);
      RankEmbeds(WallBound(m.pid, v), WallBound(m.pid, w));
    }
  }

  /** The bounds of a range hold exactly the versions of the bucket that may be compared. */
  ghost predicate RangeOf(m: Mode, bucket: int, start: real, stop: real)
    requires m.config.width > 0
  {
    && start < stop
    && forall k: Key :: k.pid == m.pid ==>
         (start < m.config.layout.tags(k) < stop <==> BucketOfKey(m, k) == bucket && k.ts.wall <= m.cutoff)
  }

  /** No version of the bucket is past the cutoff. */
  ghost predicate Whole(m: Mode, bucket: int)
    requires m.config.width > 0
  {
    forall k: Key :: k.pid == m.pid && BucketOfKey(m, k) == bucket ==> k.ts.wall <= m.cutoff
  }

  lemma RangeIsExact(m: Mode, bound: int -> real, bucket: nat)
    requires m.config.width > 0 && BoundsSeparate(m, bound) && m.cutoff >= 0
    requires bucket <= m.cutoff / m.config.width
    requires (m.cutoff / m.config.width + 1) * m.config.width < 0x1_0000_0000_0000_0000
    ensures var w := m.config.width;
            var start, end, horizon := bound(bucket * w), bound((bucket + 1) * w), bound(m.cutoff + 1);
            RangeOf(m, bucket, start, if end <= horizon then end else horizon) && (end <= horizon ==> Whole(m, bucket))
  {
    var w := m.config.width;
    var lo, hi, h := bucket * w, (bucket + 1) * w, m.cutoff + 1;
    BucketEdges(m.cutoff, w, bucket);
    var start, stop := bound(lo), if bound(hi) <= bound(h) then bound(hi) else bound(h);
    assert bound(hi) <= bound(h) <==> hi <= h by {
      assert hi < h ==> bound(hi) < bound(h);
      assert h < hi ==> bound(h) < bound(hi);
    }
    forall k: Key | k.pid == m.pid
      ensures start < m.config.layout.tags(k) < stop <==> BucketOfKey(m, k) == bucket && k.ts.wall <= m.cutoff
      ensures hi <= h && BucketOfKey(m, k) == bucket ==> k.ts.wall <= m.cutoff
    {
      KeyBetween(m, bound, k, bucket, lo, hi, h);
    }
  }

  lemma BucketEdges(cutoff: nat, w: nat, bucket: nat)
    requires w > 0 && bucket <= cutoff / w && (cutoff / w + 1) * w < 0x1_0000_0000_0000_0000
    ensures var lo, hi, h := bucket * w, (bucket + 1) * w, cutoff + 1;
            0 <= lo < hi < 0x1_0000_0000_0000_0000 && lo < h < 0x1_0000_0000_0000_0000
  {
    var c := cutoff / w;
    BucketOf(cutoff, c, w);
    assert bucket * w <= c * w && (bucket + 1) * w <= (c + 1) * w;
    assert (bucket + 1) * w == bucket * w + w;
  }

  lemma KeyBetween(m: Mode, bound: int -> real, k: Key, bucket: nat, lo: nat, hi: nat, h: nat)
    requires m.config.width > 0 && BoundsSeparate(m, bound) && k.pid == m.pid
    requires lo == bucket * m.config.width && hi == (bucket + 1) * m.config.width && h == m.cutoff + 1
    requires lo < hi < 0x1_0000_0000_0000_0000 && h < 0x1_0000_0000_0000_0000
    ensures var t := m.config.layout.tags(k);
            && (bound(lo) < t < bound(hi) <==> BucketOfKey(m, k) == bucket)
            && (t < bound(h) <==> k.ts.wall <= m.cutoff)
  {
    BucketOf(k.ts.wall, bucket, m.config.width);
  }

  /** A window done to a cursor moves the frontier there; done to the end, it settles the bucket. */
  lemma WindowDoneMeans(p: Pair, m: Mode, bucket: int, cursor: Option<real>, start: real, stop: real)
    requires m.config.width > 0 && RangeOf(m, bucket, start, stop)
    requires SettledBelow(p, m, bucket) && WindowDone(p, m, bucket, cursor, stop)
    ensures cursor.Some? ==> Covered(p, m, Position(bucket, cursor)) && SettledUpTo(p, m, bucket, cursor.value)
    ensures cursor.None? ==> SettledBelow(p, m, bucket + 1) && Covered(p, m, Position(bucket + 1, None))
  {
    forall k | k in Eligible(p, m) && BucketOfKey(m, k) == bucket && Within(m.config.layout, k, cursor, stop)
      ensures Settled(p, m, k)
    {
    }
    if cursor.None? {
      forall k | k in Eligible(p, m) && BucketOfKey(m, k) == bucket
        ensures Settled(p, m, k)
      {
        assert m.config.layout.tags(k) < stop;
      }
    }
  }

  /** A resumed range starts where its checkpoint says, or at its beginning. */
  lemma ResumeIsCovered(p: Pair, m: Mode, pos: Position, start: real, stop: real)
    requires m.config.width > 0 && RangeOf(m, pos.bucket, start, stop) && Covered(p, m, pos)
    ensures SettledBelow(p, m, pos.bucket) && SettledUpTo(p, m, pos.bucket, start)
    ensures pos.key.Some? ==> SettledUpTo(p, m, pos.bucket, pos.key.value)
  {
    forall k | k in Eligible(p, m) && BucketOfKey(m, k) == pos.bucket
      ensures m.config.layout.tags(k) > start
    {
    }
  }

  /** A range holds the part of its bucket that may be compared. */
  lemma RangeHoldsPart(s: Store, m: Mode, bucket: int, start: real, stop: real)
    requires m.config.width > 0 && RangeOf(m, bucket, start, stop)
    ensures Window(s, m, start, None, stop) == InPart(s, m, bucket)
  {
  }

  /** Equal digests settle the part of a bucket that may be compared, under the same proviso. */
  lemma EqualPartsSettle(p: Pair, m: Mode, bucket: int, k: Key)
    requires m.config.width > 0 && Sum(m.config.of, InPart(p.local, m, bucket)) == Sum(m.config.of, InPart(p.remote, m, bucket))
    requires !Mistaken(m, InPart(p.local, m, bucket), InPart(p.remote, m, bucket))
    requires k in Eligible(p, m) && BucketOfKey(m, k) == bucket
    ensures Settled(p, m, k)
  {
    var mine, theirs := InPart(p.local, m, bucket), InPart(p.remote, m, bucket);
    assert k in mine || k in theirs;
  }

  /** A bucket whose fingerprints differ was never set aside. */
  lemma DifferingNotBlind(p: Pair, m: Mode, bucket: int)
    requires m.config.width > 0 && Excused(p, m) && BucketSum(p.local, m, bucket) != BucketSum(p.remote, m, bucket)
    requires Whole(m, bucket) || Sum(m.config.of, InPart(p.local, m, bucket)) != Sum(m.config.of, InPart(p.remote, m, bucket))
    ensures bucket !in m.blind
  {
    if Whole(m, bucket) {
      assert InPart(p.local, m, bucket) == InBucket(p.local, m, bucket);
      assert InPart(p.remote, m, bucket) == InBucket(p.remote, m, bucket);
    }
  }

  // ---------------------------------------------------------- bucket pages

  lemma EligibleBucket(m: Mode, k: Key)
    requires m.config.width > 0 && m.cutoff >= 0 && k.ts.wall <= m.cutoff
    ensures 0 <= BucketOfKey(m, k) <= m.cutoff / m.config.width
  {
    DivMonotone(k.ts.wall, m.cutoff, m.config.width);
  }

  lemma MulSign(y: int, w: int)
    requires w > 0
    ensures y * w > 0 <==> y > 0
  {
  }

  lemma DivMonotone(a: int, b: int, w: int)
    requires w > 0 && 0 <= a <= b
    ensures 0 <= a / w <= b / w
  {
    var x := b / w - a / w;
    assert a == (a / w) * w + a % w && b == (b / w) * w + b % w;
    assert x * w == (b / w) * w - (a / w) * w;
    assert x * w > 0 - w;
    MulSign(x + 1, w);
  }

  /** The first checkpoint passes nothing. */
  lemma NothingPassed(p: Pair, m: Mode)
    requires m.config.width > 0
    ensures Covered(p, m, Position(-1, None))
  {
    forall k | k in Eligible(p, m)
      ensures !Passed(m, Position(-1, None), k)
    {
      DivMonotone(0, k.ts.wall, m.config.width);
    }
  }

  /** Every eligible version of the buckets up to `upto`, or of all of them, is settled. */
  ghost predicate SettledThrough(p: Pair, m: Mode, upto: Option<int>)
    requires m.config.width > 0
  {
    forall k :: k in Eligible(p, m) && (upto.Some? ==> BucketOfKey(m, k) <= upto.value) ==> Settled(p, m, k)
  }

  /** `buckets` lists every bucket of an eligible version after `after`, up to `upto`. */
  ghost predicate Spanning(p: Pair, m: Mode, buckets: seq<int>, after: Option<int>, upto: Option<int>)
    requires m.config.width > 0
  {
    forall k :: k in Eligible(p, m) ==>
      (after.Some? ==> BucketOfKey(m, k) > after.value) && (upto.Some? ==> BucketOfKey(m, k) <= upto.value) ==>
        BucketOfKey(m, k) in buckets
  }

  /** The first `i` of the listed buckets are settled, and so is everything up to `after`. */
  ghost predicate BucketsDone(p: Pair, m: Mode, buckets: seq<int>, i: nat, after: Option<int>)
    requires m.config.width > 0 && i <= |buckets|
  {
    && (after.Some? ==> SettledThrough(p, m, after))
    && forall k :: k in Eligible(p, m) && BucketOfKey(m, k) in buckets[..i] ==> Settled(p, m, k)
  }

  predicate Increasing(buckets: seq<int>) {
    forall i, j :: 0 <= i < j < |buckets| ==> buckets[i] < buckets[j]
  }

  /** When a bucket's turn comes, all the buckets before it are settled. */
  lemma BeforeNext(p: Pair, m: Mode, buckets: seq<int>, i: nat, after: Option<int>, upto: Option<int>)
    requires m.config.width > 0 && i < |buckets| && Increasing(buckets)
    requires Spanning(p, m, buckets, after, upto) && BucketsDone(p, m, buckets, i, after)
    requires upto.Some? ==> buckets[i] <= upto.value
    ensures SettledBelow(p, m, buckets[i]) && Covered(p, m, Position(buckets[i], None))
  {
    forall k | k in Eligible(p, m) && BucketOfKey(m, k) < buckets[i]
      ensures Settled(p, m, k)
    {
      if after.None? || BucketOfKey(m, k) > after.value {
        var j :| 0 <= j < |buckets| && buckets[j] == BucketOfKey(m, k);
        assert buckets[..i][j] == BucketOfKey(m, k);
      }
    }
    CoveredMeans(p, m, buckets[i], 0.0);
  }

  lemma BucketsDoneAdvances(p: Pair, q: Pair, m: Mode, buckets: seq<int>, i: nat, after: Option<int>)
    requires m.config.width > 0 && i < |buckets| && Grows(p, q, m)
    requires BucketsDone(p, m, buckets, i, after) && SettledBelow(q, m, buckets[i] + 1)
    ensures BucketsDone(q, m, buckets, i + 1, after)
  {
    GrowsKeepsKnown(p, q, m);
    assert buckets[..i + 1] == buckets[..i] + [buckets[i]];
    forall k | k in Eligible(q, m) && Settled(p, m, k)
      ensures Settled(q, m, k)
    {
      GrowsKeepsSettled(p, q, m, k);
    }
  }

  lemma AllBucketsDone(p: Pair, m: Mode, buckets: seq<int>, after: Option<int>, upto: Option<int>)
    requires m.config.width > 0
    requires Spanning(p, m, buckets, after, upto) && BucketsDone(p, m, buckets, |buckets|, after)
    ensures SettledThrough(p, m, upto)
  {
    assert buckets[..|buckets|] == buckets;
  }

  /** Past the cutoff bucket there is nothing left to settle. */
  lemma PastCutoff(p: Pair, m: Mode, bucket: int)
    requires m.config.width > 0 && m.cutoff >= 0 && bucket > m.cutoff / m.config.width
    ensures SettledBelow(p, m, bucket) ==> AllSettled(p, m)
    ensures SettledThrough(p, m, Some(bucket)) ==> AllSettled(p, m)
  {
    forall k | k in Eligible(p, m)
      ensures BucketOfKey(m, k) < bucket
    {
      EligibleBucket(m, k);
    }
  }

  lemma BlinderKeepsBuckets(p: Pair, m: Mode, m': Mode, buckets: seq<int>, i: nat, after: Option<int>, upto: Option<int>)
    requires m.config.width > 0 && Blinder(m, m') && i <= |buckets|
    ensures SettledThrough(p, m, upto) ==> SettledThrough(p, m', upto)
    ensures Spanning(p, m, buckets, after, upto) ==> Spanning(p, m', buckets, after, upto)
    ensures BucketsDone(p, m, buckets, i, after) ==> BucketsDone(p, m', buckets, i, after)
  {
    assert Eligible(p, m') <= Eligible(p, m);
  }

  lemma GrowsKeepsSpanning(p: Pair, q: Pair, m: Mode, buckets: seq<int>, after: Option<int>, upto: Option<int>)
    requires m.config.width > 0 && Grows(p, q, m) && Spanning(p, m, buckets, after, upto)
    ensures Spanning(q, m, buckets, after, upto)
  {
    GrowsKeepsKnown(p, q, m);
  }
}
