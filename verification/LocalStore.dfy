/**
Local storage operations of anti-entropy: bounded reads, and writes cut into small
transactions.
*/
module LocalStore {
  import opened Codec
  import opened Scan
  import opened Versions
  import opened Session
  import opened Retention

  const APPLY_BATCH: nat := 64
  const APPLY_BATCH_BYTES: nat := 8 * 1024 * 1024

  /** What a record counts for in a batch: its key, tag and data, with the framing of each. */
  function RecordSize(r: Record): nat {
    var key := 4 + (12 + |r.key.ts.node|) + (2 + |r.key.address.namespace| + |r.key.address.key|);
    key + (1 + |r.entry.tag.payload|) + |r.entry.value.data| + 1 + 16
  }

  /** That is the length of the TAGS key, the tag and the data, a separator and sixteen bytes of framing. */
  lemma RecordSizeIsEncoded(r: Record)
    ensures RecordSize(r) == |TagsBytes(r.key)| + |[0] + r.entry.tag.payload| + |r.entry.value.data| + 17
  {
    TagsLength(r.key);
  }

  function TotalSize(rs: seq<Record>): nat {
    if |rs| == 0 then 0 else TotalSize(rs[..|rs| - 1]) + RecordSize(rs[|rs| - 1])
  }

  function Concat(batches: seq<seq<Record>>): seq<Record> {
    if |batches| == 0 then [] else Concat(batches[..|batches| - 1]) + batches[|batches| - 1]
  }

  predicate BatchFits(b: seq<Record>) {
    1 <= |b| <= APPLY_BATCH && (|b| == 1 || TotalSize(b) <= APPLY_BATCH_BYTES)
  }

  /** A transaction ends only where one more record would not fit. */
  predicate CutHere(b: seq<Record>, next: seq<Record>) {
    next != [] && (|b| == APPLY_BATCH || TotalSize(b) + RecordSize(next[0]) > APPLY_BATCH_BYTES)
  }

  lemma ConcatGain(batches: seq<seq<Record>>, b: seq<Record>)
    ensures Concat(batches + [b]) == Concat(batches) + b
  {
    assert (batches + [b])[..|batches|] == batches;
  }

  lemma TotalSizeGain(rs: seq<Record>, r: Record)
    ensures TotalSize(rs + [r]) == TotalSize(rs) + RecordSize(r)
  {
    assert (rs + [r])[..|rs|] == rs;
  }

  /** Cut records into transactions of bounded count and size, keeping them all and in order. */
  method Batches(records: seq<Record>) returns (batches: seq<seq<Record>>)
    ensures Concat(batches) == records
    ensures forall b :: b in batches ==> BatchFits(b)
    ensures forall x :: 0 < x < |batches| ==> CutHere(batches[x - 1], batches[x])
  {
    batches := [];
    var current: seq<Record> := [];
    var size := 0;
    for i := 0 to |records|
      invariant Concat(batches) + current == records[..i]
      invariant forall b :: b in batches ==> BatchFits(b)
      invariant current != [] ==> BatchFits(current)
      invariant forall x :: 0 < x < |batches| ==> CutHere(batches[x - 1], batches[x])
      invariant current != [] && |batches| > 0 ==> CutHere(batches[|batches| - 1], current)
      invariant current == [] ==> batches == []
      invariant size == TotalSize(current)
    {
      var r := records[i];
      assert records[..i + 1] == records[..i] + [r];
      if current != [] && (|current| == APPLY_BATCH || size + RecordSize(r) > APPLY_BATCH_BYTES) {
        ConcatGain(batches, current);
        batches := batches + [current];
        current, size := [], 0;
      }
      TotalSizeGain(current, r);
      size := size + RecordSize(r);
      current := current + [r];
    }
    assert records[..|records|] == records;
    if current != [] {
      ConcatGain(batches, current);
      batches := batches + [current];
    }
  }

  // ----------------------------------------------------------------- reads

  /** The owned records among `keys`, in order. */
  function RecordsOf(s: Store, keys: seq<Key>): seq<Record> {
    if |keys| == 0 then []
    else
      var k := keys[|keys| - 1];
      RecordsOf(s, keys[..|keys| - 1]) + (if Owned(s, k) then [Record(k, s[k])] else [])
  }

  lemma {:induction false} RecordsOfExactly(s: Store, keys: seq<Key>)
    ensures forall r :: r in RecordsOf(s, keys) <==> r.key in keys && Owned(s, r.key) && r.entry == s[r.key]
    ensures |RecordsOf(s, keys)| <= |keys|
  {
    if |keys| > 0 {
      var init := keys[..|keys| - 1];
      RecordsOfExactly(s, init);
      assert keys == init + [keys[|keys| - 1]];
    }
  }

  /** Read owned versions in order up to a byte budget; at least one key is consumed. */
  method Read(s: Store, keys: seq<Key>, maxBytes: nat) returns (records: seq<Record>, consumed: nat)
    ensures consumed <= |keys| && (keys != [] ==> consumed >= 1)
    ensures records == RecordsOf(s, keys[..consumed])
    ensures |records| <= 1 || TotalSize(records) <= maxBytes
    ensures consumed < |keys| ==>
              && Owned(s, keys[consumed]) && records != []
              && TotalSize(records) + RecordSize(Record(keys[consumed], s[keys[consumed]])) > maxBytes
  {
    records, consumed := [], 0;
    var size := 0;
    assert keys[..0] == [];
    while consumed < |keys|
      invariant consumed <= |keys| && records == RecordsOf(s, keys[..consumed])
      invariant consumed == 0 ==> records == []
      invariant size == TotalSize(records) && (|records| <= 1 || size <= maxBytes)
    {
      var k := keys[consumed];
      RecordsOfGain(s, keys, consumed);
      if k in s && OwnedTag(s[k].tag) {
        var r := Record(k, s[k]);
        if records != [] && size + RecordSize(r) > maxBytes {
          return;
        }
        TotalSizeGain(records, r);
        size := size + RecordSize(r);
        records := records + [r];
      }
      consumed := consumed + 1;
    }
  }

  lemma RecordsOfGain(s: Store, keys: seq<Key>, i: nat)
    requires i < |keys|
    ensures RecordsOf(s, keys[..i + 1])
         == RecordsOf(s, keys[..i]) + (if Owned(s, keys[i]) then [Record(keys[i], s[keys[i]])] else [])
  {
    assert keys[..i + 1][..i] == keys[..i];
  }

  // ---------------------------------------------------------------- writes

  /** `t` is `s` plus some of `rs`; the rest of `rs` is out of retention there. */
  ghost predicate Absorbed(s: Store, t: Store, c: Config, rs: seq<Record>) {
    && Extends(s, t)
    && (forall k :: k in t && k !in s ==> Record(k, t[k]) in rs)
    && (forall r :: r in rs ==> r.key in t || Superseded(t, c.layout, c.versions, r.key))
  }

  lemma AbsorbedJoins(s: Store, t: Store, u: Store, c: Config, rs: seq<Record>, more: seq<Record>)
    requires Absorbed(s, t, c, rs) && Absorbed(t, u, c, more)
    ensures Absorbed(s, u, c, rs + more)
  {
    forall r | r in rs + more
      ensures r.key in u || Superseded(u, c.layout, c.versions, r.key)
    {
      if r in rs && r.key !in t {
        SupersededStays(t, u, c.layout, c.versions, r.key);
      }
    }
  }

  datatype Applications = Applications(applied: nat, present: nat, ignored: nat)

  /** Apply one batch in one transaction. */
  method ApplyBatch(g: Group, c: Config, batch: seq<Record>) returns (g': Group, result: Applications)
    requires Sound(c) && Consistent(g, c)
    ensures Consistent(g', c) && Absorbed(g.store, g'.store, c, batch)
    ensures result.applied + result.present + result.ignored == |batch|
    ensures |g'.store| == |g.store| + result.applied
    ensures result.ignored == |set i: nat | i < |batch| && Outside(g.store, c.layout, c.versions, batch[i].key)|
    ensures result.present ==
            |set i: nat | i < |batch| && !Outside(g.store, c.layout, c.versions, batch[i].key) && Repeated(g.store, batch, i)|
  {
    var d;
    g', d := ApplyTransaction(g, c, batch);
    result := Applications(CountOf(d, Applied), CountOf(d, AlreadyPresent), CountOf(d, IgnoredRetention));
    CountsCover(d);
    AppliedCounts(g.store, Refusals(g.store, c.layout, c.versions, batch), batch);
    ApplySettles(g.store, c.layout, c.versions, batch);
    CountIsPlaces(d, IgnoredRetention);
    CountIsPlaces(d, AlreadyPresent);
    BatchPlaces(g.store, c, batch, d);
  }

  lemma BatchPlaces(s: Store, c: Config, batch: seq<Record>, d: seq<Disposition>)
    requires Lawful(c.layout) && d == Dispositions(s, Refusals(s, c.layout, c.versions, batch), batch)
    ensures Places(d, IgnoredRetention) == set i: nat | i < |batch| && Outside(s, c.layout, c.versions, batch[i].key)
    ensures Places(d, AlreadyPresent)
         == set i: nat | i < |batch| && !Outside(s, c.layout, c.versions, batch[i].key) && Repeated(s, batch, i)
  {
    DispositionsLength(s, Refusals(s, c.layout, c.versions, batch), batch);
    forall i: nat | i < |batch|
      ensures d[i] == if Outside(s, c.layout, c.versions, batch[i].key) then IgnoredRetention
                      else if Repeated(s, batch, i) then AlreadyPresent else Applied
    {
      BatchPlace(s, c, batch, i);
    }
  }

  lemma BatchPlace(s: Store, c: Config, batch: seq<Record>, i: nat)
    requires Lawful(c.layout) && i < |batch|
    ensures var d := Dispositions(s, Refusals(s, c.layout, c.versions, batch), batch);
            |d| == |batch| && d[i] == if Outside(s, c.layout, c.versions, batch[i].key) then IgnoredRetention
                                      else if Repeated(s, batch, i) then AlreadyPresent else Applied
  {
    DispositionsMean(s, Refusals(s, c.layout, c.versions, batch), batch, i);
    assert batch[i] in batch && batch[i].key in KeysOf(batch);
  }

  /** Apply batches one transaction at a time; every record is accounted for. */
  method ApplyBatches(g: Group, c: Config, batches: seq<seq<Record>>) returns (g': Group, result: Applications)
    requires Sound(c) && Consistent(g, c)
    ensures Consistent(g', c) && Absorbed(g.store, g'.store, c, Concat(batches))
    ensures result.applied + result.present + result.ignored == |Concat(batches)|
    ensures |g'.store| == |g.store| + result.applied
  {
    g' := g;
    result := Applications(0, 0, 0);
    for i := 0 to |batches|
      invariant Consistent(g', c) && Absorbed(g.store, g'.store, c, Concat(batches[..i]))
      invariant result.applied + result.present + result.ignored == |Concat(batches[..i])|
      invariant |g'.store| == |g.store| + result.applied
    {
      ghost var before := g'.store;
      var one;
      g', one := ApplyBatch(g', c, batches[i]);
      AbsorbedJoins(g.store, before, g'.store, c, Concat(batches[..i]), batches[i]);
      assert batches[..i + 1][..i] == batches[..i];
      result := Applications(result.applied + one.applied, result.present + one.present, result.ignored + one.ignored);
    }
    assert batches[..|batches|] == batches;
  }

  /** Apply records in small transactions. */
  method ApplyResult(g: Group, c: Config, records: seq<Record>) returns (g': Group, result: Applications)
    requires Sound(c) && Consistent(g, c)
    ensures Consistent(g', c) && Absorbed(g.store, g'.store, c, records)
    ensures result.applied + result.present + result.ignored == |records|
    ensures |g'.store| == |g.store| + result.applied
  {
    var batches := Batches(records);
    g', result := ApplyBatches(g, c, batches);
  }

  lemma {:induction false} ConcatPrefix(batches: seq<seq<Record>>, n: nat)
    requires n <= |batches|
    ensures Concat(batches[..n]) <= Concat(batches)
  {
    if n == |batches| {
      assert batches[..n] == batches;
    } else {
      var init := batches[..|batches| - 1];
      ConcatPrefix(init, n);
      assert init[..n] == batches[..n];
    }
  }

  /** The first transactions of a call that was cut off: it had applied a prefix of the records. */
  method ApplyFirst(g: Group, c: Config, records: seq<Record>, transactions: nat) returns (g': Group, ghost done: seq<Record>)
    requires Sound(c) && Consistent(g, c)
    ensures Consistent(g', c) && done <= records && Absorbed(g.store, g'.store, c, done)
    ensures transactions == 0 ==> done == []
    ensures transactions >= |records| ==> done == records
  {
    var batches := Batches(records);
    var n := if transactions < |batches| then transactions else |batches|;
    ConcatPrefix(batches, n);
    NoMoreBatches(batches);
    var result;
    g', result := ApplyBatches(g, c, batches[..n]);
    done := Concat(batches[..n]);
    assert batches[..|batches|] == batches;
  }

  lemma {:induction false} NoMoreBatches(batches: seq<seq<Record>>)
    requires forall b :: b in batches ==> BatchFits(b)
    ensures |batches| <= |Concat(batches)|
  {
    if |batches| > 0 {
      assert batches[|batches| - 1] in batches;
      NoMoreBatches(batches[..|batches| - 1]);
    }
  }

  // --------------------------------------------------------------- buckets

  /** Non-empty buckets of one pid. */
  function BucketNumbers(cells: Cells, pid: int): set<int> {
    set ref | ref in cells && ref.Bucket? && ref.pid == pid :: ref.bucket
  }

  /** Those after an exclusive cursor. */
  function BucketsAfter(cells: Cells, pid: int, after: Option<int>): set<int> {
    set b | b in BucketNumbers(cells, pid) && (after.Some? ==> b > after.value)
  }

  /** Those up to an inclusive end. */
  function BucketSpan(cells: Cells, pid: int, after: Option<int>, upto: Option<int>): set<int> {
    set b | b in BucketsAfter(cells, pid, after) && (upto.Some? ==> b <= upto.value)
  }

  /** One page of the non-empty buckets of `pid` after an exclusive cursor. */
  method BucketPage(cells: Cells, pid: int, after: Option<int>, limit: nat) returns (page: set<int>, cursor: Option<int>)
    requires limit >= 1
    ensures page == BucketSpan(cells, pid, after, cursor)
    ensures cursor.Some? ==> cursor.value in BucketsAfter(cells, pid, after) && |page| == limit
  {
    var all := BucketsAfter(cells, pid, after);
    var buckets := First(all, (b: int) => b as real, limit);
    page := set b | b in buckets;
    cursor := if |buckets| == limit then Some(buckets[|buckets| - 1]) else None;
    FirstBuckets(buckets, all, limit);
    BucketsCounted(buckets, all, limit);
  }

  lemma BucketsCounted(buckets: seq<int>, all: set<int>, limit: nat)
    requires IsFirst(buckets, all, (b: int) => b as real, limit)
    ensures |set b | b in buckets| == |buckets|
  {
    var pos := (b: int) => b as real;
    forall i, j | 0 <= i < j < |buckets|
      ensures buckets[i] != buckets[j]
    {
      assert pos(buckets[i]) < pos(buckets[j]);
    }
    ListedSize(buckets);
  }

  lemma FirstBuckets(buckets: seq<int>, all: set<int>, limit: nat)
    requires limit >= 1 && IsFirst(buckets, all, (b: int) => b as real, limit)
    ensures |buckets| == limit ==>
              buckets[limit - 1] in all && forall b :: b in all ==> (b in buckets <==> b <= buckets[limit - 1])
    ensures |buckets| < limit ==> forall b :: b in all ==> b in buckets
    ensures forall b :: b in buckets ==> b in all
  {
    var pos := (b: int) => b as real;
    if |buckets| == limit {
      var last := buckets[limit - 1];
      assert last in buckets;
      forall b | b in all
        ensures b in buckets <==> b <= last
      {
        if b in buckets {
          var i :| 0 <= i < |buckets| && buckets[i] == b;
          assert i < limit - 1 ==> pos(b) < pos(last);
        } else {
          assert pos(last) < pos(b);
        }
      }
    }
  }

  /** Every non-empty bucket of `pid` after one cursor, up to another, read page by page. */
  method BucketsUntil(cells: Cells, pid: int, after: Option<int>, upto: Option<int>, limit: nat) returns (found: set<int>)
    requires limit >= 1
    ensures found == BucketSpan(cells, pid, after, upto)
  {
    found := {};
    var cursor := after;
    while true
      invariant found <= BucketSpan(cells, pid, after, upto)
      invariant BucketSpan(cells, pid, after, upto) - found <= BucketsAfter(cells, pid, cursor)
      invariant BucketsAfter(cells, pid, cursor) <= BucketsAfter(cells, pid, after)
      decreases BucketsAfter(cells, pid, cursor)
    {
      var page, more := BucketPage(cells, pid, cursor, limit);
      var kept := set b | b in page && (upto.Some? ==> b <= upto.value);
      found := found + kept;
      if more.None? || kept != page {
        LastPage(cells, pid, cursor, more, upto, page, kept);
        return;
      }
      assert more.value in BucketsAfter(cells, pid, cursor) && more.value !in BucketsAfter(cells, pid, more);
      assert forall b :: b in BucketsAfter(cells, pid, cursor) && b !in page ==> b in BucketsAfter(cells, pid, more);
      cursor := more;
    }
  }

  /** Once a page ends the scan or passes `upto`, nothing wanted lies beyond it. */
  lemma LastPage(cells: Cells, pid: int, cursor: Option<int>, more: Option<int>, upto: Option<int>, page: set<int>, kept: set<int>)
    requires page == BucketSpan(cells, pid, cursor, more)
    requires kept == set b | b in page && (upto.Some? ==> b <= upto.value)
    requires more.None? || kept != page
    ensures BucketSpan(cells, pid, cursor, upto) <= kept
  {
    if more.Some? {
      var x :| x in page && x !in kept;
      assert upto.Some? && upto.value < x <= more.value;
    }
  }
}
