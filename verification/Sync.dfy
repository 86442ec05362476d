/**
What the node that opens an anti-entropy session does to one partition, against a quiescent peer.

The session descends buckets, ranges and keys, copies what a target replica lacks, stops
when a budget is spent or a request fails, and resumes from its checkpoint.
*/
module Sync {
  import opened Codec
  import opened Scan
  import opened Versions
  import opened Digest
  import opened Session
  import opened Retention
  import opened LocalStore
  import opened Replicas

  const MAX_PAGE_LIMIT: nat := 0x4000
  const SCAN_PAGE: nat := 4096

  function Min(a: nat, b: nat): nat {
    if a < b then a else b
  }

  datatype Outcome = Done | Spent | Interrupted

  datatype Direction = Push | Pull | Skip

  function DirectionOf(m: Mode, k: Key, mine: set<Key>, theirs: set<Key>): Direction {
    if k !in theirs && m.pushable then Push
    else if k !in mine && m.pullable then Pull
    else Skip
  }

  /** Absorbing records the other side owns is growth. */
  lemma AbsorbedGains(s: Store, t: Store, other: Store, m: Mode, keys: seq<Key>, rs: seq<Record>)
    requires forall k :: k in keys ==> k.pid == m.pid && Owned(other, k)
    requires Absorbed(s, t, m.config, rs)
    requires forall r :: r in rs ==> r in RecordsOf(other, keys)
    ensures Gains(s, t, other, m, true)
    ensures forall k :: k in t && k !in s ==> k in keys
  {
    RecordsOfExactly(other, keys);
  }

  lemma GainsJoin(s: Store, t: Store, u: Store, other: Store, m: Mode)
    requires Gains(s, t, other, m, true) && Gains(t, u, other, m, true)
    ensures Gains(s, u, other, m, true)
  {
  }

  lemma GainsSize(s: Store, t: Store, other: Store, m: Mode)
    requires Gains(s, t, other, m, true)
    ensures |s| <= |t|
  {
    SubsetSize(s.Keys, t.Keys);
  }

  /** `t` is `s` after the first `i` of `keys` were copied, and maybe more of them. */
  ghost predicate Copying(s: Store, t: Store, source: Store, m: Mode, keys: seq<Key>, i: nat)
    requires i <= |keys|
  {
    && Gains(s, t, source, m, true)
    && (forall k :: k in t && k !in s ==> k in keys)
    && (forall x :: 0 <= x < i ==> Held(t, m, keys[x]))
  }

  lemma AbsorbedHeld(t: Store, u: Store, source: Store, m: Mode, part: seq<Key>, k: Key)
    requires Absorbed(t, u, m.config, RecordsOf(source, part)) && k in part && Owned(source, k)
    ensures Held(u, m, k)
  {
    RecordsOfExactly(source, part);
    assert Record(k, source[k]) in RecordsOf(source, part);
  }

  lemma CopyingAdvances(s: Store, t: Store, u: Store, source: Store, m: Mode, keys: seq<Key>, i: nat, j: nat)
    requires i <= j <= |keys| && Copying(s, t, source, m, keys, i)
    requires forall k :: k in keys ==> k.pid == m.pid && Owned(source, k)
    requires Absorbed(t, u, m.config, RecordsOf(source, keys[i..j]))
    ensures Copying(s, u, source, m, keys, j)
  {
    var part := keys[i..j];
    AbsorbedGains(t, u, source, m, part, RecordsOf(source, part));
    GainsJoin(s, t, u, source, m);
    forall x | 0 <= x < j
      ensures Held(u, m, keys[x])
    {
      if x < i {
        HeldStays(t, u, m, keys[x]);
      } else {
        assert part[x - i] in part;
        AbsorbedHeld(t, u, source, m, part, keys[x]);
      }
    }
  }

  /** A request takes all keys left, a page of them, or as many as fit the byte budget. */
  predicate PartEnds(source: Store, keys: seq<Key>, i: nat, j: nat, page: nat, batchBytes: nat)
    requires i < j <= |keys|
  {
    || j == |keys| || j == i + page
    || (Owned(source, keys[j]) && TotalSize(RecordsOf(source, keys[i..j])) + RecordSize(Record(keys[j], source[keys[j]])) > batchBytes)
  }

  /** The records of one request. */
  method ReadPart(source: Store, keys: seq<Key>, i: nat, page: nat, batchBytes: nat) returns (records: seq<Record>, j: nat)
    requires page >= 1 && i < |keys|
    ensures i < j <= |keys| && records == RecordsOf(source, keys[i..j]) && PartEnds(source, keys, i, j, page, batchBytes)
  {
    var chunk := keys[i..Min(|keys|, i + page)];
    var consumed;
    records, consumed := Read(source, chunk, batchBytes);
    j := i + consumed;
    assert chunk[..consumed] == keys[i..j];
    assert consumed < |chunk| ==> chunk[consumed] == keys[j];
  }

  /** One request: read the next versions within the byte budget and apply them to the target. */
  method CopyPart(source: Store, target: Group, m: Mode, keys: seq<Key>, i: nat, page: nat, batchBytes: nat)
    returns (next: Group, j: nat, applied: nat)
    requires Sound(m.config) && Consistent(target, m.config) && page >= 1 && i < |keys|
    ensures i < j <= |keys| && applied <= j - i && PartEnds(source, keys, i, j, page, batchBytes)
    ensures Consistent(next, m.config) && |next.store| == |target.store| + applied
    ensures Absorbed(target.store, next.store, m.config, RecordsOf(source, keys[i..j]))
  {
    var records;
    records, j := ReadPart(source, keys, i, page, batchBytes);
    RecordsOfExactly(source, keys[i..j]);
    var result;
    next, result := ApplyResult(target, m.config, records);
    applied := result.applied;
  }

  lemma AmongRecords(source: Store, keys: seq<Key>, i: nat, j: nat, done: seq<Record>)
    requires i <= j <= |keys| && done <= RecordsOf(source, keys[i..j])
    ensures forall r :: r in done ==> r in RecordsOf(source, keys)
  {
    RecordsOfExactly(source, keys[i..j]);
    RecordsOfExactly(source, keys);
    forall r | r in done
      ensures r in RecordsOf(source, keys)
    {
      assert r in RecordsOf(source, keys[i..j]);
      assert r.key in keys[i..j];
    }
  }

  lemma AbsorbedNothing(s: Store, t: Store, c: Config)
    requires Absorbed(s, t, c, [])
    ensures t == s
  {
    assert t.Keys == s.Keys;
  }

  /** A request that goes unanswered, of which the responder had carried out some transactions. */
  method LosePart(source: Store, target: Group, m: Mode, keys: seq<Key>, i: nat, page: nat, batchBytes: nat, lost: nat)
    returns (next: Group)
    requires Sound(m.config) && Consistent(target, m.config) && page >= 1 && i < |keys|
    requires forall k :: k in keys ==> k.pid == m.pid && Owned(source, k)
    ensures Consistent(next, m.config) && Gains(target.store, next.store, source, m, true)
    ensures forall k :: k in next.store && k !in target.store ==> k in keys
    ensures |next.store| >= |target.store| && (lost == 0 ==> next.store == target.store)
  {
    var records, j := ReadPart(source, keys, i, page, batchBytes);
    ghost var done;
    next, done := ApplyFirst(target, m.config, records, lost);
    AmongRecords(source, keys, i, j, done);
    AbsorbedGains(target.store, next.store, source, m, keys, done);
    GainsSize(target.store, next.store, source, m);
    if lost == 0 {
      AbsorbedNothing(target.store, next.store, m.config);
    }
  }

  /** The number of elements, taken one by one. */
  ghost function Size<T>(s: set<T>): nat {
    if s == {} then 0
    else
      var x :| x in s;
      1 + Size(s - {x})
  }

  lemma {:induction false} SizeIsCount<T>(s: set<T>)
    ensures Size(s) == |s|
  {
    if s != {} {
      var x :| x in s && Size(s) == 1 + Size(s - {x});
      SizeIsCount(s - {x});
    }
  }

  /** A store grew by the repairs counted, or by some more when the last ones went unreported. */
  predicate Counted(s: Store, t: Store, repairs: int, unreported: bool) {
    |t| >= |s| + repairs && (unreported || |t| == |s| + repairs)
  }

  lemma SizedGrowth(s: Store, t: Store, repairs: int, unreported: bool)
    requires Counted(s, t, repairs, unreported)
    ensures Size(t.Keys) >= Size(s.Keys) + repairs && (unreported || Size(t.Keys) == Size(s.Keys) + repairs)
  {
    SizeIsCount(s.Keys);
    SizeIsCount(t.Keys);
  }

  datatype Copied = Copied(target: Group, applied: nat, answers: nat, outcome: Outcome)

  /**
  Copy versions of `source` into `target`, one request per batch of bytes, while repairs are left,
  until done or until a request goes unanswered; `lost` tells how many transactions of an unanswered
  one were carried out. What is counted as applied is what the target gained, unless a request went
  unanswered. With room for every key the budget never stops it halfway.
  */
  method Copy(source: Store, target: Group, m: Mode, keys: seq<Key>, page: nat, batchBytes: nat, room: int, answers: nat, lost: nat)
    returns (r: Copied)
    requires Sound(m.config) && Consistent(target, m.config) && page >= 1
    requires forall k :: k in keys ==> k.pid == m.pid && Owned(source, k)
    ensures Consistent(r.target, m.config) && r.applied <= |keys|
    ensures Copying(target.store, r.target.store, source, m, keys, if r.outcome == Done then |keys| else 0)
    ensures Counted(target.store, r.target.store, r.applied, r.outcome == Interrupted && lost > 0)
    ensures |keys| <= room ==> r.outcome != Spent
    ensures r.answers <= answers && (r.outcome == Interrupted ==> r.answers == 0)
    ensures r.outcome == Done && keys != [] ==> r.answers < answers
    ensures answers == 0 && lost == 0 ==> r.target.store == target.store
  {
    var now, applied, left, i := target, 0, answers, 0;
    while i < |keys|
      invariant i <= |keys| && 0 <= applied <= i && (answers == 0 ==> now == target && left == 0)
      invariant Consistent(now, m.config) && Copying(target.store, now.store, source, m, keys, i)
      invariant Counted(target.store, now.store, applied, false) && 0 <= left <= answers && (i > 0 ==> left < answers)
    {
      if applied >= room {
        return Copied(now, applied, left, Spent);
      }
      if left == 0 {
        var reached := LosePart(source, now, m, keys, i, page, batchBytes, lost);
        GainsJoin(target.store, now.store, reached.store, source, m);
        return Copied(reached, applied, left, Interrupted);
      }
      var next, j, gained := CopyPart(source, now, m, keys, i, page, batchBytes);
      CopyingAdvances(target.store, now.store, next.store, source, m, keys, i, j);
      now, applied, left, i := next, applied + gained, left - 1, j;
    }
    r := Copied(now, applied, left, Done);
  }

  /**
  The two sides of a session, the repairs made, the requests that will still be answered, and how
  many transactions the responder carries out of a push that is not.
  */
  datatype Work = Work(local: Group, remote: Group, pushed: nat, pulled: nat, answers: nat, lost: nat) {
    function Sides(): Pair {
      Pair(local.store, remote.store)
    }

    function Repairs(): nat {
      pushed + pulled
    }

    /** How much a side stores beyond the repairs counted for it. */
    ghost function LocalBase(): int {
      Size(local.store.Keys) - pulled
    }

    ghost function RemoteBase(): int {
      Size(remote.store.Keys) - pushed
    }
  }

  /** The sides grew by the repairs counted for them, the remote one by more when a push went unanswered. */
  ghost predicate Booked(w: Work, w': Work, outcome: Outcome) {
    && w'.LocalBase() == w.LocalBase()
    && (w'.RemoteBase() == w.RemoteBase() || (outcome == Interrupted && w'.RemoteBase() > w.RemoteBase()))
  }

  ghost predicate Sane(w: Work, m: Mode) {
    Sound(m.config) && Consistent(w.local, m.config) && Consistent(w.remote, m.config)
  }

  /** The two pages were read from the two sides, and lie in one bucket of the partition. */
  predicate Listed(p: Pair, m: Mode, mine: set<Key>, theirs: set<Key>, bucket: int)
    requires m.config.width > 0
  {
    && (forall k :: k in mine ==> Owned(p.local, k))
    && (forall k :: k in theirs ==> Owned(p.remote, k))
    && (forall k :: k in mine + theirs ==> k.pid == m.pid && BucketOfKey(m, k) == bucket)
  }

  /** The keys all go the same way. */
  predicate SameWay(m: Mode, d: Direction, chunk: seq<Key>, mine: set<Key>, theirs: set<Key>) {
    forall k :: k in chunk ==> k in mine + theirs && DirectionOf(m, k, mine, theirs) == d
  }

  /** Settle one chunk of keys that go the same way. */
  method MergeChunk(w: Work, m: Mode, d: Direction, chunk: seq<Key>, mine: set<Key>, theirs: set<Key>, bucket: int,
                    page: nat, batchBytes: nat, room: int)
    returns (w': Work, outcome: Outcome)
    requires Sane(w, m) && page >= 1 && Listed(w.Sides(), m, mine, theirs, bucket) && SameWay(m, d, chunk, mine, theirs)
    ensures Sane(w', m) && Grows(w.Sides(), w'.Sides(), m)
    ensures w'.Repairs() <= w.Repairs() + (if d == Skip then 0 else |chunk|)
    ensures forall k :: k in w'.local.store && k !in w.local.store ==> k in chunk
    ensures forall k :: k in w'.remote.store && k !in w.remote.store ==> k in chunk
    ensures outcome == Done ==> forall k :: k in chunk ==> Settled(w'.Sides(), m, k)
    ensures (d == Skip || |chunk| <= room ==> outcome != Spent) && Booked(w, w', outcome) && (outcome == Interrupted ==> w'.answers == 0)
  {
    match d
    case Push =>
      var r := Copy(w.local.store, w.remote, m, chunk, |chunk| + 1, batchBytes, room, w.answers, w.lost);
      w', outcome := w.(remote := r.target, pushed := w.pushed + r.applied, answers := r.answers), r.outcome;
      SizedGrowth(w.remote.store, r.target.store, r.applied, r.outcome == Interrupted && w.lost > 0);
    case Pull =>
      var r := Copy(w.remote.store, w.local, m, chunk, page, batchBytes, room, w.answers, 0);
      w', outcome := w.(local := r.target, pulled := w.pulled + r.applied, answers := r.answers), r.outcome;
      SizedGrowth(w.local.store, r.target.store, r.applied, false);
    case Skip =>
      w', outcome := w, Done;
  }

  /** End of the next chunk: keys that go the same way, at most `size` of them. */
  method ChunkEnd(m: Mode, ordered: seq<Key>, i: nat, mine: set<Key>, theirs: set<Key>, size: nat) returns (j: nat)
    requires i < |ordered| && size >= 1 && forall k :: k in ordered ==> k in mine + theirs
    ensures i < j <= |ordered| && j - i <= size
    ensures SameWay(m, DirectionOf(m, ordered[i], mine, theirs), ordered[i..j], mine, theirs)
    ensures j == |ordered| || j - i == size || DirectionOf(m, ordered[j], mine, theirs) != DirectionOf(m, ordered[i], mine, theirs)
  {
    var d := DirectionOf(m, ordered[i], mine, theirs);
    j := i + 1;
    while j < |ordered| && j - i < size && DirectionOf(m, ordered[j], mine, theirs) == d
      invariant i < j <= |ordered| && j - i <= size
      invariant forall x :: i <= x < j ==> DirectionOf(m, ordered[x], mine, theirs) == d
    {
      j := j + 1;
    }
  }

  lemma ListedStays(p: Pair, q: Pair, m: Mode, mine: set<Key>, theirs: set<Key>, bucket: int)
    requires m.config.width > 0 && Grows(p, q, m) && Listed(p, m, mine, theirs, bucket)
    ensures Listed(q, m, mine, theirs, bucket)
  {
  }

  /** Settle the next chunk of a window, as long as the repairs left allow; the budget never cuts a chunk short. */
  method MergeStep(w: Work, m: Mode, bucket: int, ghost origin: Pair, ghost from: real, ghost cursor: Option<real>,
                   ghost stop: real, ghost pos: Position, ordered: seq<Key>, i: nat, mine: set<Key>, theirs: set<Key>,
                   page: nat, batchBytes: nat, maxRepairs: nat)
    returns (w': Work, j: nat, outcome: Outcome)
    requires Sane(w, m) && page >= 1 && w.Repairs() <= maxRepairs && i < |ordered|
    requires Listed(w.Sides(), m, mine, theirs, bucket) && forall k :: k in ordered ==> k in mine + theirs
    requires WindowAt(origin, w.Sides(), m, bucket, from, cursor, stop, ordered, i) && Covered(w.Sides(), m, pos)
    requires DirectionOf(m, ordered[i], mine, theirs) != Skip ==> w.Repairs() < maxRepairs
    ensures Sane(w', m) && w'.Repairs() <= maxRepairs && i < j <= |ordered|
    ensures Listed(w'.Sides(), m, mine, theirs, bucket)
    ensures Grows(origin, w'.Sides(), m) && Confined(origin, w'.Sides(), m, bucket) && Covered(w'.Sides(), m, pos)
    ensures outcome != Spent && Booked(w, w', outcome) && (outcome == Interrupted ==> w'.answers == 0)
    ensures outcome == Done ==> WindowAt(origin, w'.Sides(), m, bucket, from, cursor, stop, ordered, j)
    ensures outcome == Done ==> Covered(w'.Sides(), m, Position(bucket, Some(m.config.layout.tags(ordered[j - 1]))))
  {
    var d := DirectionOf(m, ordered[i], mine, theirs);
    var room := maxRepairs - w.Repairs();
    j := ChunkEnd(m, ordered, i, mine, theirs, Min(page, Max(1, room)));
    w', outcome := MergeChunk(w, m, d, ordered[i..j], mine, theirs, bucket, page, batchBytes, room);
    ChunkMerged(origin, w.Sides(), w'.Sides(), m, bucket, pos, ordered, i, j);
    ListedStays(w.Sides(), w'.Sides(), m, mine, theirs, bucket);
    if outcome == Done {
      WindowAdvances(origin, w.Sides(), w'.Sides(), m, bucket, from, cursor, stop, ordered, i, j);
    }
  }

  /** The checkpoint stands at one of the keys of a window. */
  predicate Marked(m: Mode, pos: Position, keys: set<Key>, cursor: Option<real>, stop: real) {
    exists k :: k in keys && Within(m.config.layout, k, cursor, stop) && pos.key == Some(m.config.layout.tags(k))
  }

  /** The checkpoint after the first `i` keys. */
  function PositionAt(m: Mode, pos: Position, ordered: seq<Key>, i: nat): Position
    requires i <= |ordered|
  {
    if i == 0 then pos else Position(pos.bucket, Some(m.config.layout.tags(ordered[i - 1])))
  }

  lemma MarkedAt(m: Mode, pos: Position, from: real, keys: set<Key>, cursor: Option<real>, stop: real, ordered: seq<Key>, i: nat)
    requires i <= |ordered| && (pos.key.Some? ==> pos.key.value <= from)
    requires forall k :: k in ordered ==> k in keys && Within(m.config.layout, k, cursor, stop) && m.config.layout.tags(k) > from
    ensures i > 0 ==> PositionAt(m, pos, ordered, i) != pos && Marked(m, PositionAt(m, pos, ordered, i), keys, cursor, stop)
  {
    if i > 0 {
      assert ordered[i - 1] in ordered;
    }
  }

  /** Settle listed keys in order, chunk by chunk; only whole chunks move the checkpoint. */
  method MergeOrdered(w: Work, m: Mode, pos: Position, ghost from: real, ghost cursor: Option<real>, ghost stop: real, ordered: seq<Key>,
                      mine: set<Key>, theirs: set<Key>, page: nat, batchBytes: nat, maxRepairs: nat)
    returns (w': Work, pos': Position, outcome: Outcome, ghost i: nat)
    requires Sane(w, m) && page >= 1 && w.Repairs() <= maxRepairs && Listed(w.Sides(), m, mine, theirs, pos.bucket)
    requires forall k :: k in ordered ==> k in mine + theirs
    requires WindowAt(w.Sides(), w.Sides(), m, pos.bucket, from, cursor, stop, ordered, 0) && Covered(w.Sides(), m, pos)
    ensures Sane(w', m) && w'.Repairs() <= maxRepairs && Covered(w'.Sides(), m, pos')
    ensures Grows(w.Sides(), w'.Sides(), m) && Confined(w.Sides(), w'.Sides(), m, pos.bucket)
    ensures i <= |ordered| && pos' == PositionAt(m, pos, ordered, i)
    ensures outcome == Done ==> i == |ordered| && WindowAt(w.Sides(), w'.Sides(), m, pos.bucket, from, cursor, stop, ordered, i)
    ensures outcome != Interrupted && i == 0 ==> w' == w
    ensures (outcome == Spent ==> w'.Repairs() == maxRepairs) && Booked(w, w', outcome) && (outcome == Interrupted ==> w'.answers == 0)
  {
    w', pos' := w, pos;
    var next := 0;
    while next < |ordered|
      invariant next <= |ordered| && pos' == PositionAt(m, pos, ordered, next) && (next == 0 ==> w' == w) && Booked(w, w', Done)
      invariant Sane(w', m) && w'.Repairs() <= maxRepairs && Listed(w'.Sides(), m, mine, theirs, pos.bucket)
      invariant WindowAt(w.Sides(), w'.Sides(), m, pos.bucket, from, cursor, stop, ordered, next) && Covered(w'.Sides(), m, pos')
      decreases |ordered| - next
    {
      if DirectionOf(m, ordered[next], mine, theirs) != Skip && w'.Repairs() >= maxRepairs {
        return w', pos', Spent, next;
      }
      var j;
      w', j, outcome := MergeStep(w', m, pos.bucket, w.Sides(), from, cursor, stop, pos', ordered, next, mine, theirs,
                                  page, batchBytes, maxRepairs);
      if outcome != Done {
        return w', pos', outcome, next;
      }
      pos' := Position(pos.bucket, Some(m.config.layout.tags(ordered[j - 1])));
      next := j;
    }
    outcome, i := Done, next;
  }

  /** Compare one window of keys and settle it in key order. */
  method MergePage(w: Work, m: Mode, pos: Position, ghost from: real, cursor: Option<real>, stop: real,
                   mine: set<Key>, theirs: set<Key>, page: nat, batchBytes: nat, maxRepairs: nat)
    returns (w': Work, pos': Position, outcome: Outcome)
    requires Sane(w, m) && page >= 1 && w.Repairs() <= maxRepairs && Listed(w.Sides(), m, mine, theirs, pos.bucket)
    requires Complete(w.Sides(), m, pos.bucket, from, cursor, stop, mine + theirs)
    requires SettledUpTo(w.Sides(), m, pos.bucket, from) && Covered(w.Sides(), m, pos)
    requires (pos.key.Some? ==> pos.key.value <= from) && forall k :: k in mine + theirs ==> m.config.layout.tags(k) > from
    ensures Sane(w', m) && w'.Repairs() <= maxRepairs
    ensures Covered(w'.Sides(), m, pos') && pos'.bucket == pos.bucket
    ensures Grows(w.Sides(), w'.Sides(), m) && Confined(w.Sides(), w'.Sides(), m, pos.bucket)
    ensures outcome == Done ==> WindowDone(w'.Sides(), m, pos.bucket, cursor, stop)
    ensures pos' == pos || Marked(m, pos', mine + theirs, cursor, stop)
    ensures outcome != Interrupted && pos' == pos ==> w'.Repairs() == w.Repairs()
    ensures (outcome == Spent ==> w'.Repairs() == maxRepairs) && Booked(w, w', outcome) && (outcome == Interrupted ==> w'.answers == 0)
  {
    var window: set<Key> := set k | k in mine + theirs && Within(m.config.layout, k, cursor, stop);
    LawfulInjective(m.config.layout, window);
    var ordered := Sort(window, m.config.layout.tags);
    CoveredMeans(w.Sides(), m, pos.bucket, from);
    ghost var i;
    w', pos', outcome, i := MergeOrdered(w, m, pos, from, cursor, stop, ordered, mine, theirs, page, batchBytes, maxRepairs);
    MarkedAt(m, pos, from, mine + theirs, cursor, stop, ordered, i);
    if outcome == Done {
      WindowSettled(w'.Sides(), m, pos.bucket, from, cursor, stop, ordered);
    }
  }

  /** Pages of a range only list versions of its bucket. */
  lemma PagesListed(p: Pair, m: Mode, bucket: int, start: real, cursor: real, lc: Option<real>, rc: Option<real>, stop: real)
    requires m.config.width > 0 && RangeOf(m, bucket, start, stop) && start <= cursor
    requires lc.Some? ==> lc.value < stop
    requires rc.Some? ==> rc.value < stop
    ensures Listed(p, m, Window(p.local, m, cursor, lc, stop), Window(p.remote, m, cursor, rc, stop), bucket)
    ensures InWindow(p, m, bucket, cursor, stop, Window(p.local, m, cursor, lc, stop) + Window(p.remote, m, cursor, rc, stop))
  {
  }

  /** Keys listed from the two sides, after a cursor, in one bucket of the partition. */
  ghost predicate InWindow(p: Pair, m: Mode, bucket: int, from: real, stop: real, keys: set<Key>)
    requires m.config.width > 0
  {
    forall k :: k in keys ==>
      k in p.local.Keys + p.remote.Keys && k.pid == m.pid && BucketOfKey(m, k) == bucket && from < m.config.layout.tags(k) < stop
  }

  /** A checkpoint moved to a key of the window leaves strictly less to do. */
  lemma MarkedProgress(p: Pair, q: Pair, m: Mode, pos: Position, pos': Position, start: real, from: real, cursor: Option<real>,
                       stop: real, keys: set<Key>)
    requires m.config.width > 0 && Grows(p, q, m) && RangeOf(m, pos.bucket, start, stop) && start <= from
    requires InWindow(p, m, pos.bucket, from, stop, keys) && (pos.key.Some? ==> pos.key.value <= from)
    requires pos'.bucket == pos.bucket && (pos' == pos || Marked(m, pos', keys, cursor, stop))
    ensures Pending(q, m, pos') <= Pending(p, m, pos)
    ensures pos' != pos ==> Pending(q, m, pos') < Pending(p, m, pos) && keys != {}
    ensures AtHome(m, pos) ==> AtHome(m, pos')
  {
    PendingShrinks(p, q, m, pos, pos);
    if pos' != pos {
      var k :| k in keys && Within(m.config.layout, k, cursor, stop) && pos'.key == Some(m.config.layout.tags(k));
      PendingDrops(p, q, m, pos, pos', k);
      assert k.ts.wall <= m.cutoff;
    }
  }

  /** Where the checkpoint goes once a window is done. */
  function NextPosition(bucket: int, next: Option<real>): Position {
    if next.Some? then Position(bucket, next) else Position(bucket + 1, None)
  }

  /** A window done leaves no more to do, and less if it listed or reached anything. */
  lemma WindowProgress(p: Pair, q: Pair, m: Mode, pos: Position, start: real, from: real, next: Option<real>, stop: real, keys: set<Key>)
    requires m.config.width > 0 && Grows(p, q, m) && RangeOf(m, pos.bucket, start, stop) && start <= from
    requires InWindow(p, m, pos.bucket, from, stop, keys) && (pos.key.Some? ==> pos.key.value <= from)
    requires next.Some? ==> next.value < stop && exists k :: k in Ahead(p, m, from) && m.config.layout.tags(k) == next.value
    ensures Pending(q, m, NextPosition(pos.bucket, next)) <= Pending(p, m, pos)
    ensures next.Some? || keys != {} ==> Pending(q, m, NextPosition(pos.bucket, next)) < Pending(p, m, pos)
    ensures AtHome(m, NextPosition(pos.bucket, next))
  {
    var pos' := NextPosition(pos.bucket, next);
    if next.Some? {
      var k :| k in Ahead(p, m, from) && m.config.layout.tags(k) == next.value;
      assert BucketOfKey(m, k) == pos.bucket && k.ts.wall <= m.cutoff;
      PendingDrops(p, q, m, pos, pos', k);
    } else {
      PendingShrinks(p, q, m, pos, pos');
      if keys != {} {
        var k :| k in keys;
        PendingDrops(p, q, m, pos, pos', k);
      }
    }
  }

  /** What a window does to the checkpoint: less and less is pending, strictly less if anything was done. */
  ghost predicate Onward(w: Work, w': Work, m: Mode, pos: Position, pos': Position, outcome: Outcome, next: Option<real>, count: nat, maxRepairs: nat)
    requires m.config.width > 0
  {
    && Pending(w'.Sides(), m, pos') <= Pending(w.Sides(), m, pos)
    && (AtHome(m, pos) ==> AtHome(m, pos'))
    && (outcome == Spent ==>
          w'.Repairs() == maxRepairs &&
          (w'.Repairs() == w.Repairs() || Pending(w'.Sides(), m, pos') < Pending(w.Sides(), m, pos)))
    && (outcome == Done ==>
          var after := NextPosition(pos.bucket, next);
          && AtHome(m, after) && Pending(w'.Sides(), m, after) <= Pending(w.Sides(), m, pos)
          && (count > 0 || w'.Repairs() != w.Repairs() ==> Pending(w'.Sides(), m, after) < Pending(w.Sides(), m, pos)))
  }

  lemma WindowMoves(w: Work, w': Work, m: Mode, pos: Position, pos': Position, start: real, from: real, next: Option<real>, stop: real,
                    keys: set<Key>, outcome: Outcome, count: nat, maxRepairs: nat)
    requires m.config.width > 0 && Grows(w.Sides(), w'.Sides(), m) && RangeOf(m, pos.bucket, start, stop) && start <= from
    requires InWindow(w.Sides(), m, pos.bucket, from, stop, keys) && (pos.key.Some? ==> pos.key.value <= from)
    requires next.Some? ==> next.value < stop && exists k :: k in Ahead(w.Sides(), m, from) && m.config.layout.tags(k) == next.value
    requires pos'.bucket == pos.bucket && (pos' == pos || Marked(m, pos', keys, next, stop)) && (count > 0 ==> keys != {})
    requires outcome != Interrupted && pos' == pos ==> w'.Repairs() == w.Repairs()
    requires outcome == Spent ==> w'.Repairs() == maxRepairs
    ensures Onward(w, w', m, pos, pos', outcome, next, count, maxRepairs)
  {
    MarkedProgress(w.Sides(), w'.Sides(), m, pos, pos', start, from, next, stop, keys);
    WindowProgress(w.Sides(), w'.Sides(), m, pos, start, from, next, stop, keys);
  }

  /** Read one page of keys from each side; the window ends at the sooner end. */
  method ReadPages(p: Pair, m: Mode, bucket: int, ghost start: real, cursor: real, stop: real, limit: nat)
    returns (mine: set<Key>, theirs: set<Key>, next: Option<real>, ghost lc: Option<real>, ghost rc: Option<real>)
    requires Sound(m.config) && limit >= 1 && RangeOf(m, bucket, start, stop) && start <= cursor < stop
    ensures Listed(p, m, mine, theirs, bucket) && InWindow(p, m, bucket, cursor, stop, mine + theirs)
    ensures Complete(p, m, bucket, cursor, next, stop, mine + theirs) && |mine| <= limit && |theirs| <= limit
    ensures mine == Window(p.local, m, cursor, lc, stop) && theirs == Window(p.remote, m, cursor, rc, stop) && next == Sooner(rc, lc)
    ensures (lc.Some? ==> lc.value < stop) && (rc.Some? ==> rc.value < stop)
    ensures next.Some? ==> cursor < next.value < stop && exists k :: k in Ahead(p, m, cursor) && m.config.layout.tags(k) == next.value
  {
    var remoteEnd, localEnd;
    theirs, remoteEnd := OwnedPage(p.remote, m, cursor, stop, limit);
    mine, localEnd := OwnedPage(p.local, m, cursor, stop, limit);
    lc, rc := localEnd, remoteEnd;
    PagesComplete(p, m, bucket, cursor, lc, rc, stop);
    PagesListed(p, m, bucket, start, cursor, lc, rc, stop);
    next := Sooner(remoteEnd, localEnd);
    if next.Some? {
      EndReached(p, m, cursor, lc, rc);
    }
  }

  /** Owned versions of a window, those that both sides own counted twice. */
  ghost function Cost(p: Pair, m: Mode, start: real, cursor: Option<real>, stop: real): nat {
    Size(Window(p.local, m, start, cursor, stop)) + Size(Window(p.remote, m, start, cursor, stop))
  }

  lemma SmallerSize<T>(s: set<T>, t: set<T>)
    requires s <= t
    ensures Size(s) <= Size(t)
  {
    SizeIsCount(s);
    SizeIsCount(t);
    SubsetSize(s, t);
  }

  lemma SizeAdds<T>(s: set<T>, t: set<T>)
    requires s !! t
    ensures Size(s + t) == Size(s) + Size(t)
  {
    SizeIsCount(s);
    SizeIsCount(t);
    SizeIsCount(s + t);
  }

  /** Two pages list at least what lies before the sooner end. */
  lemma PagesCost(p: Pair, m: Mode, start: real, lc: Option<real>, rc: Option<real>, stop: real)
    requires (lc.Some? ==> lc.value < stop) && (rc.Some? ==> rc.value < stop)
    ensures Cost(p, m, start, Sooner(rc, lc), stop) <= Size(Window(p.local, m, start, lc, stop)) + Size(Window(p.remote, m, start, rc, stop))
  {
    SmallerSize(Window(p.local, m, start, Sooner(rc, lc), stop), Window(p.local, m, start, lc, stop));
    SmallerSize(Window(p.remote, m, start, Sooner(rc, lc), stop), Window(p.remote, m, start, rc, stop));
  }

  /** A range costs what its first window costs and what is left after it, also when the sides have grown since. */
  lemma CostAdvances(p: Pair, q: Pair, m: Mode, cursor: real, next: Option<real>, stop: real)
    requires Grows(p, q, m) && cursor < stop && (next.Some? ==> cursor < next.value < stop)
    ensures Cost(p, m, cursor, None, stop)
         <= Cost(q, m, cursor, next, stop) + (if next.Some? then Cost(p, m, next.value, None, stop) else 0)
  {
    SmallerSize(Window(p.local, m, cursor, next, stop), Window(q.local, m, cursor, next, stop));
    SmallerSize(Window(p.remote, m, cursor, next, stop), Window(q.remote, m, cursor, next, stop));
    if next.Some? {
      WindowSplits(p.local, m, cursor, next.value, stop);
      WindowSplits(p.remote, m, cursor, next.value, stop);
    }
  }

  lemma WindowSplits(s: Store, m: Mode, cursor: real, next: real, stop: real)
    requires cursor < next < stop
    ensures Size(Window(s, m, cursor, None, stop)) == Size(Window(s, m, cursor, Some(next), stop)) + Size(Window(s, m, next, None, stop))
  {
    WindowsJoin(s, m, cursor, next, None, stop);
    SizeAdds(Window(s, m, cursor, Some(next), stop), Window(s, m, next, None, stop));
  }

  /** What is still to be charged for a range at a cursor, or at its end. */
  ghost function Remaining(p: Pair, m: Mode, cursor: Option<real>, stop: real): nat {
    match cursor
    case Some(at) => Cost(p, m, at, None, stop)
    case None => 0
  }

  /** One window more: growth adds up, and what it listed pays for what is no longer remaining. */
  lemma WindowJoins(p: Pair, q: Pair, r: Pair, m: Mode, bucket: int, cursor: real, next: Option<real>, stop: real)
    requires m.config.width > 0 && Grows(p, q, m) && Grows(q, r, m) && Confined(p, q, m, bucket) && Confined(q, r, m, bucket)
    requires cursor < stop && (next.Some? ==> cursor < next.value < stop)
    ensures Grows(p, r, m) && Confined(p, r, m, bucket)
    ensures Remaining(p, m, Some(cursor), stop) <= Cost(q, m, cursor, next, stop) + Remaining(p, m, next, stop)
  {
    GrowsTransitive(p, q, r, m);
    ConfinedJoins(p, q, r, m, bucket);
    CostAdvances(p, q, m, cursor, next, stop);
  }

  lemma EndReached(p: Pair, m: Mode, cursor: real, lc: Option<real>, rc: Option<real>)
    requires lc.Some? ==> exists k :: k in After(p.local, m, cursor) && m.config.layout.tags(k) == lc.value
    requires rc.Some? ==> exists k :: k in After(p.remote, m, cursor) && m.config.layout.tags(k) == rc.value
    ensures var next := Sooner(rc, lc);
            next.Some? ==> exists k :: k in Ahead(p, m, cursor) && m.config.layout.tags(k) == next.value
  {
    var next := Sooner(rc, lc);
    if next.Some? {
      if next == rc {
        var k :| k in After(p.remote, m, cursor) && m.config.layout.tags(k) == rc.value;
        assert k in Ahead(p, m, cursor);
      } else {
        var k :| k in After(p.local, m, cursor) && m.config.layout.tags(k) == lc.value;
        assert k in Ahead(p, m, cursor);
      }
    }
  }

  /** Read one page from each side, keep what both cover, and settle it; `room` is how many keys may still be scanned. */
  method ScanPages(w: Work, m: Mode, pos: Position, ghost start: real, cursor: real, stop: real, limit: nat,
                   page: nat, batchBytes: nat, maxRepairs: nat, room: nat)
    returns (w': Work, pos': Position, outcome: Outcome, next: Option<real>, count: nat, ghost lc: Option<real>, ghost rc: Option<real>)
    requires Sane(w, m) && page >= 1 && limit >= 1 && w.Repairs() <= maxRepairs
    requires RangeOf(m, pos.bucket, start, stop) && start <= cursor < stop && (pos.key.Some? ==> pos.key.value <= cursor)
    requires SettledUpTo(w.Sides(), m, pos.bucket, cursor) && Covered(w.Sides(), m, pos)
    ensures Sane(w', m) && w'.Repairs() <= maxRepairs && count <= 2 * limit
    ensures Covered(w'.Sides(), m, pos') && pos'.bucket == pos.bucket
    ensures Grows(w.Sides(), w'.Sides(), m) && Confined(w.Sides(), w'.Sides(), m, pos.bucket)
    ensures outcome == Done ==> WindowDone(w'.Sides(), m, pos.bucket, next, stop)
    ensures next.Some? ==> cursor < next.value < stop && Ahead(w'.Sides(), m, next.value) < Ahead(w.Sides(), m, cursor)
    ensures 2 * limit <= room ==> Onward(w, w', m, pos, pos', outcome, next, count, maxRepairs)
    ensures Booked(w, w', outcome) && (outcome == Interrupted ==> w'.answers == 0)
    ensures count == Size(Window(w.local.store, m, cursor, lc, stop)) + Size(Window(w.remote.store, m, cursor, rc, stop))
    ensures outcome == Done ==> count >= Cost(w.Sides(), m, cursor, next, stop)
  {
    var mine, theirs;
    mine, theirs, next, lc, rc := ReadPages(w.Sides(), m, pos.bucket, start, cursor, stop, limit);
    count := |theirs| + |mine|;
    SizeIsCount(mine);
    SizeIsCount(theirs);
    PagesCost(w.Sides(), m, cursor, lc, rc, stop);
    if count > room {
      return w, pos, Spent, None, count, lc, rc;
    }
    w', pos', outcome := MergePage(w, m, pos, cursor, next, stop, mine, theirs, page, batchBytes, maxRepairs);
    if next.Some? {
      AheadShrinks(w.Sides(), w'.Sides(), m, cursor, next.value);
    }
    assert count > 0 ==> mine + theirs != {};
    WindowMoves(w, w', m, pos, pos', start, cursor, next, stop, mine + theirs, outcome, count, maxRepairs);
  }

  /** Whether both sides report the same digest of a range. */
  method RangesAlike(w: Work, m: Mode, bucket: int, start: real, stop: real) returns (alike: bool)
    requires Sound(m.config) && RangeOf(m, bucket, start, stop)
    ensures alike <==> Sum(m.config.of, InPart(w.local.store, m, bucket)) == Sum(m.config.of, InPart(w.remote.store, m, bucket))
  {
    var remote := RangeDigest(w.remote.store, m, start, stop, SCAN_PAGE);
    var local := RangeDigest(w.local.store, m, start, stop, SCAN_PAGE);
    RangeHoldsPart(w.remote.store, m, bucket, start, stop);
    RangeHoldsPart(w.local.store, m, bucket, start, stop);
    alike := remote == local;
  }

  /** Equal fingerprints settle a bucket, or it is set aside as misjudged. */
  lemma BucketAlike(p: Pair, m: Mode, bucket: int)
    requires m.config.width > 0 && SettledBelow(p, m, bucket) && Excused(p, m)
    requires BucketSum(p.local, m, bucket) == BucketSum(p.remote, m, bucket)
    ensures var m' := m.(blind := Fooled(m, bucket, InBucket(p.local, m, bucket), InBucket(p.remote, m, bucket)));
            SettledBelow(p, m', bucket + 1) && Excused(p, m')
  {
    var m' := m.(blind := Fooled(m, bucket, InBucket(p.local, m, bucket), InBucket(p.remote, m, bucket)));
    MisjudgedAlike(p, m, m', bucket);
    forall k | k in Eligible(p, m') && BucketOfKey(m', k) < bucket + 1
      ensures Settled(p, m', k)
    {
      assert k in Eligible(p, m);
      if BucketOfKey(m, k) == bucket {
        EqualSumsSettle(p, m, bucket, k);
      }
    }
  }

  /** The same for the digests of the part of a bucket that may be compared. */
  lemma PartAlike(p: Pair, m: Mode, bucket: int)
    requires m.config.width > 0 && SettledBelow(p, m, bucket) && Excused(p, m)
    requires Sum(m.config.of, InPart(p.local, m, bucket)) == Sum(m.config.of, InPart(p.remote, m, bucket))
    ensures var m' := m.(blind := Fooled(m, bucket, InPart(p.local, m, bucket), InPart(p.remote, m, bucket)));
            SettledBelow(p, m', bucket + 1) && Excused(p, m')
  {
    var m' := m.(blind := Fooled(m, bucket, InPart(p.local, m, bucket), InPart(p.remote, m, bucket)));
    MisjudgedAlike(p, m, m', bucket);
    forall k | k in Eligible(p, m') && BucketOfKey(m', k) < bucket + 1
      ensures Settled(p, m', k)
    {
      assert k in Eligible(p, m);
      if BucketOfKey(m, k) == bucket {
        EqualPartsSettle(p, m, bucket, k);
      }
    }
  }

  lemma MisjudgedAlike(p: Pair, m: Mode, m': Mode, bucket: int)
    requires m.config.width > 0 && Blinder(m, m') && Excused(p, m)
    requires m'.blind == m.blind || (m'.blind == m.blind + {bucket} && Misjudged(p, m, bucket))
    ensures Excused(p, m')
  {
    forall b | b in m'.blind
      ensures Misjudged(p, m', b)
    {
      assert Misjudged(p, m, b);
      assert InBucket(p.local, m', b) == InBucket(p.local, m, b) && InBucket(p.remote, m', b) == InBucket(p.remote, m, b);
      assert InPart(p.local, m', b) == InPart(p.local, m, b) && InPart(p.remote, m', b) == InPart(p.remote, m, b);
    }
  }

  /** Buckets after a cursor that hold a known version. */
  ghost function BucketsAhead(p: Pair, m: Mode, after: Option<int>): set<int>
    requires m.config.width > 0
  {
    set k | k in Known(p, m) && (after.Some? ==> BucketOfKey(m, k) > after.value) :: BucketOfKey(m, k)
  }

  /** A non-empty bucket cell stands for an owned version of that bucket. */
  lemma CellHasVersion(g: Group, m: Mode, b: int)
    requires Sound(m.config) && Consistent(g, m.config)
    ensures CellAt(g.cells, Bucket(m.pid, b)) == BucketSum(g.store, m, b)
    ensures b in BucketNumbers(g.cells, m.pid) <==>
            exists k :: k in OwnedKeys(g.store) && k.pid == m.pid && BucketOfKey(m, k) == b
  {
    var ref := Bucket(m.pid, b);
    assert ExactAt(g.cells, ref, OwnedKeys(g.store), m.config.of, m.config.width);
    if b in BucketNumbers(g.cells, m.pid) {
      assert ref in g.cells;
      var k :| k in Members(OwnedKeys(g.store), ref, m.config.width);
      assert k.pid == m.pid && BucketOfKey(m, k) == b;
    }
    if k :| k in OwnedKeys(g.store) && k.pid == m.pid && BucketOfKey(m, k) == b {
      assert k in Members(OwnedKeys(g.store), ref, m.config.width);
      assert ref in g.cells;
    }
  }

  lemma InOrder(buckets: seq<int>)
    requires Ascending(buckets, (b: int) => b as real)
    ensures Increasing(buckets)
  {
    var pos := (b: int) => b as real;
    forall i, j | 0 <= i < j < |buckets|
      ensures buckets[i] < buckets[j]
    {
      assert pos(buckets[i]) < pos(buckets[j]);
    }
  }

  /** `buckets` are those of a page, and of the other side up to its end. */
  ghost predicate Paged(w: Work, m: Mode, after: Option<int>, cursor: Option<int>, buckets: seq<int>) {
    forall b :: b in buckets <==>
      b in BucketSpan(w.remote.cells, m.pid, after, cursor) + BucketSpan(w.local.cells, m.pid, after, cursor)
  }

  lemma ListedIsNatural(g: Group, m: Mode, b: int)
    requires Sound(m.config) && Consistent(g, m.config) && b in BucketNumbers(g.cells, m.pid)
    ensures 0 <= b
  {
    CellHasVersion(g, m, b);
    var k :| k in OwnedKeys(g.store) && k.pid == m.pid && BucketOfKey(m, k) == b;
    DivMonotone(0, k.ts.wall, m.config.width);
  }

  lemma PagedBucket(w: Work, m: Mode, after: Option<int>, cursor: Option<int>, buckets: seq<int>, b: int)
    requires Sane(w, m) && Paged(w, m, after, cursor, buckets) && b in buckets
    ensures 0 <= b && (cursor.Some? ==> b <= cursor.value)
  {
    if b in BucketNumbers(w.remote.cells, m.pid) {
      ListedIsNatural(w.remote, m, b);
    } else {
      ListedIsNatural(w.local, m, b);
    }
  }

  /** Those buckets are all there are, and their fingerprints are those of the two sides. */
  lemma PageSpans(w: Work, m: Mode, after: Option<int>, cursor: Option<int>, buckets: seq<int>)
    requires Sane(w, m) && Paged(w, m, after, cursor, buckets)
    ensures Spanning(w.Sides(), m, buckets, after, cursor) && Fresh(w.Sides(), m, buckets, 0, w.remote.cells, w.local.cells)
    ensures forall x :: 0 <= x < |buckets| ==> 0 <= buckets[x] && (cursor.Some? ==> buckets[x] <= cursor.value)
  {
    forall x | 0 <= x < |buckets|
      ensures 0 <= buckets[x] && (cursor.Some? ==> buckets[x] <= cursor.value)
      ensures CellAt(w.remote.cells, Bucket(m.pid, buckets[x])) == BucketSum(w.remote.store, m, buckets[x])
      ensures CellAt(w.local.cells, Bucket(m.pid, buckets[x])) == BucketSum(w.local.store, m, buckets[x])
    {
      PagedBucket(w, m, after, cursor, buckets, buckets[x]);
      CellHasVersion(w.remote, m, buckets[x]);
      CellHasVersion(w.local, m, buckets[x]);
    }
    ListedSpans(w, m, after, cursor, buckets);
  }

  lemma ListedSpans(w: Work, m: Mode, after: Option<int>, cursor: Option<int>, buckets: seq<int>)
    requires Sane(w, m) && Paged(w, m, after, cursor, buckets)
    ensures Spanning(w.Sides(), m, buckets, after, cursor)
  {
    forall k | k in Known(w.Sides(), m)
      ensures BucketOfKey(m, k) in BucketNumbers(w.remote.cells, m.pid) + BucketNumbers(w.local.cells, m.pid)
    {
      CellHasVersion(w.remote, m, BucketOfKey(m, k));
      CellHasVersion(w.local, m, BucketOfKey(m, k));
    }
  }

  /** The next page of the peer's buckets, with this side's up to its end. */
  method ListBuckets(w: Work, m: Mode, after: Option<int>, page: nat) returns (l: Listing)
    requires Sane(w, m) && page >= 1
    ensures Current(w.Sides(), m, l, 0) && l.after == after
    ensures l.upto.Some? ==> BucketAfter(w.Sides(), m, after, l.upto.value)
  {
    var listed, cursor := BucketPage(w.remote.cells, m.pid, after, page);
    var own := BucketsUntil(w.local.cells, m.pid, after, cursor, page);
    var buckets := Sort(listed + own, (b: int) => b as real);
    InOrder(buckets);
    PageSpans(w, m, after, cursor, buckets);
    if cursor.Some? {
      CellHasVersion(w.remote, m, cursor.value);
    }
    l := Listing(buckets, w.remote.cells, w.local.cells, after, cursor);
  }

  /** The peer owns a version in that bucket, which comes after the cursor. */
  ghost predicate BucketAfter(p: Pair, m: Mode, after: Option<int>, bucket: int)
    requires m.config.width > 0
  {
    && (after.Some? ==> bucket > after.value)
    && exists k :: k in OwnedKeys(p.remote) && k.pid == m.pid && BucketOfKey(m, k) == bucket
  }

  lemma AheadOfPage(p: Pair, q: Pair, m: Mode, m': Mode, after: Option<int>, cursor: int)
    requires m.config.width > 0 && Blinder(m, m') && Grows(p, q, m') && BucketAfter(p, m, after, cursor)
    ensures BucketsAhead(q, m', Some(cursor)) < BucketsAhead(p, m, after)
  {
    GrowsKeepsKnown(p, q, m');
    var k :| k in OwnedKeys(p.remote) && k.pid == m.pid && BucketOfKey(m, k) == cursor;
    assert k in Known(p, m) && Known(q, m') == Known(p, m);
    assert cursor in BucketsAhead(p, m, after) && cursor !in BucketsAhead(q, m', Some(cursor));
  }

  /** What the bounds of ranges rely on; and every bucket set aside so far is misjudged still. */
  ghost predicate Comparing(p: Pair, m: Mode, bound: int -> real)
    requires m.config.width > 0
  {
    && BoundsSeparate(m, bound) && m.cutoff >= 0
    && (m.cutoff / m.config.width + 1) * m.config.width < 0x1_0000_0000_0000_0000
    && Excused(p, m)
  }

  lemma ComparingStays(p: Pair, q: Pair, m: Mode, bound: int -> real, bucket: int)
    requires m.config.width > 0 && Grows(p, q, m) && Confined(p, q, m, bucket) && bucket !in m.blind && Comparing(p, m, bound)
    ensures Comparing(q, m, bound)
  {
    ExcusedStays(p, q, m, bucket);
  }

  /** No more is pending than at the start of the session, and less once anything was scanned or repaired. */
  ghost predicate Shrunk(p: Pair, m: Mode, pos: Position, busy: bool, from: set<Key>)
    requires m.config.width > 0
  {
    AtHome(m, pos) && Pending(p, m, pos) <= from && (busy ==> Pending(p, m, pos) != from)
  }

  /** Setting aside a misjudged bucket keeps all that a session relies on. */
  lemma BlinderStands(p: Pair, m: Mode, m': Mode, bound: int -> real, pos: Position, busy: bool, from: set<Key>)
    requires m.config.width > 0 && Blinder(m, m') && Comparing(p, m, bound) && Excused(p, m')
    requires Covered(p, m, pos) && Shrunk(p, m, pos, busy, from)
    ensures Comparing(p, m', bound) && Covered(p, m', pos) && Shrunk(p, m', pos, busy, from)
  {
    BlinderKeeps(p, p, m, m', pos, 0);
  }

  /** The fingerprints read for the buckets still to come are those of the two sides now. */
  ghost predicate Fresh(p: Pair, m: Mode, buckets: seq<int>, i: nat, theirs: Cells, mine: Cells)
    requires m.config.width > 0
  {
    forall x :: i <= x < |buckets| ==>
      && CellAt(theirs, Bucket(m.pid, buckets[x])) == BucketSum(p.remote, m, buckets[x])
      && CellAt(mine, Bucket(m.pid, buckets[x])) == BucketSum(p.local, m, buckets[x])
  }

  lemma FreshStays(p: Pair, q: Pair, m: Mode, m': Mode, buckets: seq<int>, i: nat, theirs: Cells, mine: Cells)
    requires m.config.width > 0 && Blinder(m, m') && i < |buckets| && Increasing(buckets)
    requires Grows(p, q, m') && Confined(p, q, m', buckets[i]) && Fresh(p, m, buckets, i, theirs, mine)
    ensures Fresh(q, m', buckets, i + 1, theirs, mine)
  {
    forall x | i + 1 <= x < |buckets|
      ensures BucketSum(q.remote, m', buckets[x]) == BucketSum(p.remote, m', buckets[x])
      ensures BucketSum(q.local, m', buckets[x]) == BucketSum(p.local, m', buckets[x])
    {
      ConfinedKeepsOtherMembers(p, q, m', buckets[i], buckets[x]);
    }
  }

  /** A page of buckets in ascending order, and the fingerprints both sides reported when it was read. */
  datatype Listing = Listing(buckets: seq<int>, theirs: Cells, mine: Cells, after: Option<int>, upto: Option<int>)

  /** The page still lists what there is, and its fingerprints from the `i`th bucket on are still right. */
  ghost predicate Current(p: Pair, m: Mode, l: Listing, i: nat)
    requires m.config.width > 0
  {
    && Increasing(l.buckets) && Fresh(p, m, l.buckets, i, l.theirs, l.mine) && Spanning(p, m, l.buckets, l.after, l.upto)
    && forall x :: 0 <= x < |l.buckets| ==> 0 <= l.buckets[x] && (l.upto.Some? ==> l.buckets[x] <= l.upto.value)
  }

  /** The work on a page has come to its `i`th bucket, and the ones before are settled if all went well. */
  ghost predicate Reached(p: Pair, m: Mode, l: Listing, i: nat, done: bool)
    requires m.config.width > 0 && i <= |l.buckets|
  {
    Current(p, m, l, i) && (done ==> BucketsDone(p, m, l.buckets, i, l.after))
  }

  /** There is an `i`th bucket, and it is not past the cutoff. */
  predicate Comes(m: Mode, l: Listing, i: nat)
    requires m.config.width > 0
  {
    i < |l.buckets| && l.buckets[i] <= m.cutoff / m.config.width
  }

  /** When a bucket's turn comes, all the buckets before it are settled. */
  lemma CurrentNext(p: Pair, m: Mode, l: Listing, i: nat)
    requires m.config.width > 0 && i < |l.buckets| && Current(p, m, l, i) && BucketsDone(p, m, l.buckets, i, l.after)
    ensures Covered(p, m, Position(l.buckets[i], None))
    ensures CellAt(l.theirs, Bucket(m.pid, l.buckets[i])) == BucketSum(p.remote, m, l.buckets[i])
    ensures CellAt(l.mine, Bucket(m.pid, l.buckets[i])) == BucketSum(p.local, m, l.buckets[i])
  {
    BeforeNext(p, m, l.buckets, i, l.after, l.upto);
  }

  /** Work on one bucket leaves the rest of the page as it was. */
  lemma CurrentStays(p: Pair, q: Pair, m: Mode, m': Mode, l: Listing, i: nat, done: bool)
    requires m.config.width > 0 && Blinder(m, m') && i < |l.buckets| && Current(p, m, l, i)
    requires Grows(p, q, m') && Confined(p, q, m', l.buckets[i])
    requires done ==> BucketsDone(p, m, l.buckets, i, l.after) && SettledBelow(q, m', l.buckets[i] + 1)
    ensures Reached(q, m', l, i + 1, done)
  {
    BlinderKeepsBuckets(p, m, m', l.buckets, i, l.after, l.upto);
    FreshStays(p, q, m, m', l.buckets, i, l.theirs, l.mine);
    GrowsKeepsSpanning(p, q, m', l.buckets, l.after, l.upto);
    if done {
      BucketsDoneAdvances(p, q, m', l.buckets, i, l.after);
    }
  }

  /** Nothing is left to do once the buckets are past the cutoff, or there are no more. */
  lemma PageDone(p: Pair, m: Mode, l: Listing, i: nat)
    requires m.config.width > 0 && m.cutoff >= 0 && i <= |l.buckets| && Reached(p, m, l, i, true) && !Comes(m, l, i)
    ensures SettledThrough(p, m, l.upto)
  {
    if i < |l.buckets| {
      BeforeNext(p, m, l.buckets, i, l.after, l.upto);
      PastCutoff(p, m, l.buckets[i]);
    } else {
      AllBucketsDone(p, m, l.buckets, l.after, l.upto);
    }
  }

  lemma PagesDone(p: Pair, m: Mode, cursor: int)
    requires m.config.width > 0 && m.cutoff >= 0
    ensures cursor > m.cutoff / m.config.width && SettledThrough(p, m, Some(cursor)) ==> AllSettled(p, m)
  {
    if cursor > m.cutoff / m.config.width {
      PastCutoff(p, m, cursor);
    }
  }

  lemma GrowsOn(p: Pair, q: Pair, r: Pair, m: Mode, m': Mode)
    requires m.config.width > 0 && Blinder(m, m') && Grows(p, q, m) && Grows(q, r, m')
    ensures Grows(p, r, m')
  {
    BlinderKeeps(p, q, m, m', Position(0, None), 0);
    GrowsTransitive(p, q, r, m');
  }

  /** Where a range is taken up: at the checkpoint if it lies in it. */
  function ResumeAt(pos: Position, start: real, stop: real): real {
    match pos.key
    case Some(saved) => if start <= saved < stop then saved else start
    case None => start
  }

  class PeerSync {
    const bound: int -> real
    const page: nat
    const batchBytes: nat
    const maxRepairs: nat
    const maxKeys: nat

    /** Fixed for the whole session, except that misjudged buckets are noted as they occur. */
    var mode: Mode
    var work: Work
    var scanned: nat
    var position: Position

    function Now(): Pair
      reads this`work
    {
      work.Sides()
    }

    /** Both sides are consistent and the session can page through them. */
    ghost predicate Kept()
      reads this`mode, this`work
    {
      Sane(work, mode) && page >= 1
    }

    ghost predicate Comparable()
      requires mode.config.width > 0
      reads this`mode, this`work
    {
      Comparing(Now(), mode, bound)
    }

    /** The budgets allow at least one page of two keys, and one repair. */
    predicate Funded() {
      maxRepairs >= 1 && maxKeys >= 2
    }

    ghost function Left(): set<Key>
      requires mode.config.width > 0
      reads this`mode, this`work, this`position
    {
      Pending(Now(), mode, position)
    }

    ghost predicate Moving(from: set<Key>)
      requires mode.config.width > 0
      reads this`mode, this`work, this`position, this`scanned
    {
      Shrunk(Now(), mode, position, scanned > 0 || work.Repairs() > 0, from)
    }

    /** What a part of the session that began with `from` pending leaves. */
    ghost predicate Moved(from: set<Key>, outcome: Outcome)
      requires mode.config.width > 0
      reads this`mode, this`work, this`position, this`scanned
    {
      && Shrunk(Now(), mode, position, outcome == Spent && Funded(), from)
      && (outcome == Done ==> Moving(from))
    }

    /** A session that stops early says why: a budget was used up, or a request was not answered. */
    predicate Explained(outcome: Outcome)
      reads this`work, this`scanned
    {
      && (outcome == Spent ==> maxKeys - scanned < 2 || work.Repairs() == maxRepairs)
      && (outcome == Interrupted ==> work.answers == 0)
    }

    predicate InBudget()
      reads this`work, this`scanned
    {
      scanned <= maxKeys && work.Repairs() <= maxRepairs
    }

    /** What the session keeps between its steps: the checkpoint covers only settled versions. */
    ghost predicate Standing()
      reads this`mode, this`work, this`position, this`scanned
    {
      Kept() && InBudget() && Comparable() && Covered(Now(), mode, position)
    }

    constructor (mode: Mode, bound: int -> real, keysPerRequest: nat, batchBytes: nat, maxRepairs: nat, maxKeys: nat,
                 local: Group, remote: Group, position: Position, answers: nat, lost: nat)
      requires Sound(mode.config) && keysPerRequest >= 1
      requires BoundsSeparate(mode, bound) && mode.cutoff >= 0
      requires (mode.cutoff / mode.config.width + 1) * mode.config.width < 0x1_0000_0000_0000_0000
      requires Consistent(local, mode.config) && Consistent(remote, mode.config)
      requires Excused(Pair(local.store, remote.store), mode)
      ensures Kept() && Comparable() && InBudget() && this.mode == mode && this.position == position
      ensures Now() == Pair(local.store, remote.store) && scanned == 0 && work.Repairs() == 0
      ensures page <= keysPerRequest && page <= MAX_PAGE_LIMIT && (maxKeys >= 2 ==> 2 * page <= maxKeys) && (maxRepairs >= 1 ==> page <= maxRepairs)
      ensures page == 1 || page == keysPerRequest || page == MAX_PAGE_LIMIT || page == maxKeys / 2 || page == maxRepairs
      ensures position == Position(-1, None) ==> Covered(Now(), mode, position) && AtHome(mode, position)
    {
      this.mode := mode;
      this.bound := bound;
      this.page := Min(Min(keysPerRequest, MAX_PAGE_LIMIT), Min(Max(1, maxKeys / 2), Max(1, maxRepairs)));
      this.batchBytes := batchBytes;
      this.maxRepairs := maxRepairs;
      this.maxKeys := maxKeys;
      this.work := Work(local, remote, 0, 0, answers, lost);
      this.scanned := 0;
      this.position := position;
      new;
      NothingPassed(Now(), mode);
    }

    /** One request; it may go unanswered at any point of the session. */
    method Call() returns (ok: bool)
      modifies this`work
      ensures work == old(work).(answers := work.answers) && (ok <==> old(work.answers) > 0)
      ensures work.answers == if ok then old(work.answers) - 1 else 0
    {
      ok := work.answers > 0;
      if ok {
        work := work.(answers := work.answers - 1);
      }
    }

    // -------------------------------------------------------------- ranges

    /** Read one page from each side, keep what both cover, settle it, and move the checkpoint to its end. */
    method ScanOnce(bucket: int, start: real, cursor: real, stop: real, limit: nat, ghost from: set<Key>) returns (outcome: Outcome, next: Option<real>)
      requires Kept() && InBudget() && RangeOf(mode, bucket, start, stop) && start <= cursor < stop
      requires SettledUpTo(Now(), mode, bucket, cursor) && Covered(Now(), mode, position) && position.bucket == bucket
      requires Moving(from) && (position.key.Some? ==> position.key.value <= cursor) && 1 <= limit && 2 * limit <= maxKeys - scanned
      modifies this`work, this`scanned, this`position
      ensures Kept() && InBudget() && Covered(Now(), mode, position) && Moved(from, outcome)
      ensures Grows(old(Now()), Now(), mode) && Confined(old(Now()), Now(), mode, bucket)
      ensures outcome == Done ==> position == NextPosition(bucket, next)
      ensures outcome == Done && next.None? ==> SettledBelow(Now(), mode, bucket + 1)
      ensures outcome == Done && next.Some? ==> SettledUpTo(Now(), mode, bucket, next.value)
      ensures next.Some? ==> cursor < next.value < stop && Ahead(Now(), mode, next.value) < Ahead(old(Now()), mode, cursor)
      ensures Booked(old(work), work, outcome) && Explained(outcome)
      ensures outcome == Done ==> scanned >= old(scanned) + Cost(old(Now()), mode, cursor, next, stop)
    {
      var count;
      ghost var lc, rc;
      work, position, outcome, next, count, lc, rc :=
        ScanPages(work, mode, position, start, cursor, stop, limit, page, batchBytes, maxRepairs, maxKeys - scanned);
      scanned := scanned + count;
      if outcome == Done {
        ResumeIsCovered(Now(), mode, position, start, stop);
        WindowDoneMeans(Now(), mode, bucket, next, start, stop);
        position := NextPosition(bucket, next);
      }
    }

    /** The same, as long as two more keys may be scanned and the request is answered. */
    method ScanWindow(bucket: int, start: real, cursor: real, stop: real, ghost from: set<Key>) returns (outcome: Outcome, next: Option<real>)
      requires Kept() && InBudget() && RangeOf(mode, bucket, start, stop) && start <= cursor < stop
      requires SettledUpTo(Now(), mode, bucket, cursor) && Covered(Now(), mode, position) && position.bucket == bucket
      requires Moving(from) && (position.key.Some? ==> position.key.value <= cursor)
      modifies this`work, this`scanned, this`position
      ensures Kept() && InBudget() && Covered(Now(), mode, position) && Moved(from, outcome)
      ensures Grows(old(Now()), Now(), mode) && Confined(old(Now()), Now(), mode, bucket)
      ensures outcome == Done ==> position == NextPosition(bucket, next)
      ensures outcome == Done && next.None? ==> SettledBelow(Now(), mode, bucket + 1)
      ensures outcome == Done && next.Some? ==> SettledUpTo(Now(), mode, bucket, next.value)
      ensures next.Some? ==> cursor < next.value < stop && Ahead(Now(), mode, next.value) < Ahead(old(Now()), mode, cursor)
      ensures Booked(old(work), work, outcome) && Explained(outcome)
      ensures outcome == Done ==> scanned >= old(scanned) + Cost(old(Now()), mode, cursor, next, stop)
    {
      var remaining := maxKeys - scanned;
      if remaining < 2 {
        return Spent, None;
      }
      outcome, next := Interrupted, None;
      var ok := Call();
      if ok {
        outcome, next := ScanOnce(bucket, start, cursor, stop, Min(page, remaining / 2), from);
      }
    }

    /** Merge the keys of a range window by window, after a cursor up to which all is settled. */
    method SyncWindows(bucket: int, start: real, first: real, stop: real, ghost from: set<Key>) returns (outcome: Outcome)
      requires Kept() && InBudget() && Covered(Now(), mode, position) && Moving(from) && position.bucket == bucket
      requires RangeOf(mode, bucket, start, stop) && start <= first < stop && SettledUpTo(Now(), mode, bucket, first)
      requires position.key.Some? ==> position.key.value <= first
      modifies this`work, this`scanned, this`position
      ensures Kept() && InBudget() && Covered(Now(), mode, position) && Moved(from, outcome)
      ensures Grows(old(Now()), Now(), mode) && Confined(old(Now()), Now(), mode, bucket)
      ensures outcome == Done ==> SettledBelow(Now(), mode, bucket + 1)
      ensures Booked(old(work), work, outcome) && Explained(outcome)
      ensures outcome == Done ==> scanned >= old(scanned) + Cost(old(Now()), mode, first, None, stop)
    {
      ghost var origin, begun, charged := Now(), work, scanned;
      ghost var due := Cost(Now(), mode, first, None, stop);
      outcome := Done;
      var next := Some(first);
      while outcome == Done && next.Some?
        invariant Kept() && InBudget() && Covered(Now(), mode, position) && Moved(from, outcome)
        invariant Grows(origin, Now(), mode) && Confined(origin, Now(), mode, bucket)
        invariant Booked(begun, work, outcome) && Explained(outcome)
        invariant outcome == Done && next.Some? ==>
                    && start <= next.value < stop && position.bucket == bucket && SettledUpTo(Now(), mode, bucket, next.value)
                    && (position.key.Some? ==> position.key.value <= next.value)
        invariant outcome == Done && next.None? ==> SettledBelow(Now(), mode, bucket + 1)
        invariant outcome == Done ==> scanned + Remaining(origin, mode, next, stop) >= charged + due
        decreases next.Some?, if next.Some? then Ahead(Now(), mode, next.value) else {}
      {
        ghost var before, cursor := Now(), next.value;
        outcome, next := ScanWindow(bucket, start, next.value, stop, from);
        WindowJoins(origin, before, Now(), mode, bucket, cursor, next, stop);
      }
    }

    /** Merge a range from its start or from the checkpoint. */
    method SyncRange(bucket: int, start: real, stop: real, ghost from: set<Key>) returns (outcome: Outcome)
      requires Standing() && Moving(from) && position.bucket == bucket && RangeOf(mode, bucket, start, stop) && bucket !in mode.blind
      modifies this`work, this`scanned, this`position
      ensures Standing() && Moved(from, outcome)
      ensures Grows(old(Now()), Now(), mode) && Confined(old(Now()), Now(), mode, bucket)
      ensures outcome == Done ==> SettledBelow(Now(), mode, bucket + 1)
      ensures Booked(old(work), work, outcome) && Explained(outcome)
      ensures outcome == Done ==> scanned >= old(scanned) + Cost(old(Now()), mode, ResumeAt(old(position), start, stop), None, stop)
    {
      ghost var origin := Now();
      ResumeIsCovered(Now(), mode, position, start, stop);
      outcome := SyncWindows(bucket, start, ResumeAt(position, start, stop), stop, from);
      ComparingStays(origin, Now(), mode, bound, bucket);
    }

    // ------------------------------------------------------------- buckets

    /** Take two equal fingerprints for equal sets, and note the bucket if they are not. */
    method Trust(bucket: int, ghost mine: set<Key>, ghost theirs: set<Key>, ghost from: set<Key>)
      requires Standing() && Moving(from) && position.bucket == bucket
      requires var m' := mode.(blind := Fooled(mode, bucket, mine, theirs)); SettledBelow(Now(), m', bucket + 1) && Excused(Now(), m')
      modifies this`mode
      ensures mode == old(mode).(blind := Fooled(old(mode), bucket, mine, theirs))
      ensures Standing() && Moving(from) && SettledBelow(Now(), mode, bucket + 1)
    {
      ghost var m := mode;
      mode := mode.(blind := Fooled(m, bucket, mine, theirs));
      BlinderStands(Now(), m, mode, bound, position, scanned > 0 || work.Repairs() > 0, from);
    }

    /** Merge a bucket cut by the cutoff, unless the part of it before the cutoff has one digest on both sides. */
    method JudgePart(bucket: nat, start: real, horizon: real, ghost from: set<Key>) returns (outcome: Outcome)
      requires Standing() && Moving(from) && position.bucket == bucket && SettledBelow(Now(), mode, bucket)
      requires RangeOf(mode, bucket, start, horizon) && BucketSum(Now().local, mode, bucket) != BucketSum(Now().remote, mode, bucket)
      modifies this`mode, this`work, this`scanned, this`position
      ensures Standing() && Moved(from, outcome) && Booked(old(work), work, outcome) && Explained(outcome)
      ensures Blinder(old(mode), mode) && Grows(old(Now()), Now(), mode) && Confined(old(Now()), Now(), mode, bucket)
      ensures outcome == Done ==> SettledBelow(Now(), mode, bucket + 1)
    {
      var alike := RangesAlike(work, mode, bucket, start, horizon);
      if alike {
        PartAlike(Now(), mode, bucket);
        Trust(bucket, InPart(Now().local, mode, bucket), InPart(Now().remote, mode, bucket), from);
        outcome := Done;
      } else {
        DifferingNotBlind(Now(), mode, bucket);
        outcome := SyncRange(bucket, start, horizon, from);
      }
    }

    method SyncPart(bucket: nat, start: real, horizon: real, ghost from: set<Key>) returns (outcome: Outcome)
      requires Standing() && Moving(from) && position.bucket == bucket && SettledBelow(Now(), mode, bucket)
      requires RangeOf(mode, bucket, start, horizon) && BucketSum(Now().local, mode, bucket) != BucketSum(Now().remote, mode, bucket)
      modifies this`mode, this`work, this`scanned, this`position
      ensures Standing() && Moved(from, outcome) && Booked(old(work), work, outcome) && Explained(outcome)
      ensures Blinder(old(mode), mode) && Grows(old(Now()), Now(), mode) && Confined(old(Now()), Now(), mode, bucket)
      ensures outcome == Done ==> SettledBelow(Now(), mode, bucket + 1)
    {
      outcome := Interrupted;
      var ok := Call();
      if ok {
        outcome := JudgePart(bucket, start, horizon, from);
      }
    }

    /** Merge a bucket whose fingerprints differ; what it holds past the cutoff is left alone. */
    method SyncDiffering(bucket: nat, ghost from: set<Key>) returns (outcome: Outcome)
      requires Standing() && Moving(from) && position.bucket == bucket && SettledBelow(Now(), mode, bucket)
      requires bucket <= mode.cutoff / mode.config.width && BucketSum(Now().local, mode, bucket) != BucketSum(Now().remote, mode, bucket)
      modifies this`mode, this`work, this`scanned, this`position
      ensures Standing() && Moved(from, outcome) && Booked(old(work), work, outcome) && Explained(outcome)
      ensures Blinder(old(mode), mode) && Grows(old(Now()), Now(), mode) && Confined(old(Now()), Now(), mode, bucket)
      ensures outcome == Done ==> SettledBelow(Now(), mode, bucket + 1)
    {
      var width := mode.config.width;
      var start, end, horizon := bound(bucket * width), bound((bucket + 1) * width), bound(mode.cutoff + 1);
      RangeIsExact(mode, bound, bucket);
      if end <= horizon {
        DifferingNotBlind(Now(), mode, bucket);
        outcome := SyncRange(bucket, start, end, from);
      } else {
        outcome := SyncPart(bucket, start, horizon, from);
      }
    }

    /** Settle one bucket, given the fingerprints both sides report for it. */
    method SyncBucket(bucket: nat, theirs: Cell, mine: Cell, ghost from: set<Key>) returns (outcome: Outcome)
      requires Standing() && Moving(from) && position.bucket == bucket && bucket <= mode.cutoff / mode.config.width
      requires theirs == BucketSum(Now().remote, mode, bucket) && mine == BucketSum(Now().local, mode, bucket)
      modifies this`mode, this`work, this`scanned, this`position
      ensures Standing() && Moved(from, outcome) && Booked(old(work), work, outcome) && Explained(outcome)
      ensures Blinder(old(mode), mode) && Grows(old(Now()), Now(), mode) && Confined(old(Now()), Now(), mode, bucket)
      ensures outcome == Done ==> SettledBelow(Now(), mode, bucket + 1)
    {
      CoveredMeans(Now(), mode, bucket, match position.key case Some(at) => at case None => 0.0);
      if theirs == mine {
        BucketAlike(Now(), mode, bucket);
        Trust(bucket, InBucket(Now().local, mode, bucket), InBucket(Now().remote, mode, bucket), from);
        outcome := Done;
      } else {
        outcome := SyncDiffering(bucket, from);
      }
    }

    /** Move the checkpoint to the beginning of a bucket, unless it stands in it already. */
    method Enter(bucket: int, ghost from: set<Key>)
      requires Kept() && Moving(from) && position.bucket <= bucket
      requires Covered(Now(), mode, position) && Covered(Now(), mode, Position(bucket, None))
      modifies this`position
      ensures Covered(Now(), mode, position) && position.bucket == bucket && Moving(from)
    {
      if bucket > position.bucket {
        PendingShrinks(Now(), Now(), mode, position, Position(bucket, None));
        position := Position(bucket, None);
      }
    }

    /** Settle one listed bucket, unless the checkpoint is already past it. */
    method SyncNext(l: Listing, i: nat, ghost from: set<Key>) returns (outcome: Outcome)
      requires Standing() && Moving(from) && Comes(mode, l, i) && Reached(Now(), mode, l, i, true)
      modifies this`mode, this`work, this`scanned, this`position
      ensures Standing() && Moved(from, outcome) && Booked(old(work), work, outcome) && Explained(outcome)
      ensures Blinder(old(mode), mode) && Grows(old(Now()), Now(), mode) && Reached(Now(), mode, l, i + 1, outcome == Done)
    {
      ghost var before, m := Now(), mode;
      var bucket := l.buckets[i];
      outcome := Done;
      if bucket >= position.bucket {
        CurrentNext(Now(), mode, l, i);
        Enter(bucket, from);
        outcome := SyncBucket(bucket, CellAt(l.theirs, Bucket(mode.pid, bucket)), CellAt(l.mine, Bucket(mode.pid, bucket)), from);
      }
      CurrentStays(before, Now(), m, mode, l, i, outcome == Done);
    }

    /** Settle the buckets of one page in ascending order, up to the cutoff. */
    method SyncBuckets(l: Listing, ghost from: set<Key>) returns (outcome: Outcome)
      requires Standing() && Moving(from) && Reached(Now(), mode, l, 0, true)
      modifies this`mode, this`work, this`scanned, this`position
      ensures Standing() && Moved(from, outcome) && Booked(old(work), work, outcome) && Explained(outcome)
      ensures Blinder(old(mode), mode) && Grows(old(Now()), Now(), mode)
      ensures outcome == Done ==> SettledThrough(Now(), mode, l.upto)
    {
      ghost var origin, first, begun := Now(), mode, work;
      outcome := Done;
      var i := 0;
      while outcome == Done && Comes(mode, l, i)
        invariant i <= |l.buckets| && Standing() && Moved(from, outcome)
        invariant Blinder(first, mode) && Grows(origin, Now(), mode) && Booked(begun, work, outcome) && Explained(outcome)
        invariant Reached(Now(), mode, l, i, outcome == Done)
        decreases |l.buckets| - i
      {
        ghost var before, m := Now(), mode;
        outcome := SyncNext(l, i, from);
        GrowsOn(origin, before, Now(), m, mode);
        i := i + 1;
      }
      if outcome == Done {
        PageDone(Now(), mode, l, i);
      }
    }

    // ----------------------------------------------------------- partition

    /** One page of buckets: what both sides hold after `after`, up to the end of the peer's page. */
    method SyncPage(after: Option<int>, ghost from: set<Key>) returns (outcome: Outcome, cursor: Option<int>)
      requires Standing() && Moving(from)
      requires after.Some? ==> SettledThrough(Now(), mode, after)
      modifies this`mode, this`work, this`scanned, this`position
      ensures Standing() && Moved(from, outcome) && Booked(old(work), work, outcome) && Explained(outcome)
      ensures Blinder(old(mode), mode) && Grows(old(Now()), Now(), mode)
      ensures outcome == Done ==> SettledThrough(Now(), mode, cursor)
      ensures cursor.Some? ==> BucketsAhead(Now(), mode, cursor) < BucketsAhead(old(Now()), old(mode), after)
    {
      ghost var before, m := Now(), mode;
      outcome, cursor := Interrupted, None;
      var ok := Call();
      if ok {
        var listing := ListBuckets(work, mode, after, page);
        cursor := listing.upto;
        outcome := SyncBuckets(listing, from);
        if cursor.Some? {
          AheadOfPage(before, Now(), m, mode, after, cursor.value);
        }
      }
    }

    /** Settle page after page of buckets, up to the cutoff. */
    method SyncPages(ghost from: set<Key>) returns (outcome: Outcome)
      requires Standing() && Moving(from)
      modifies this`mode, this`work, this`scanned, this`position
      ensures Standing() && Moved(from, outcome) && Booked(old(work), work, outcome) && Explained(outcome)
      ensures Blinder(old(mode), mode) && Grows(old(Now()), Now(), mode)
      ensures outcome == Done ==> AllSettled(Now(), mode)
    {
      ghost var origin, first, begun := Now(), mode, work;
      outcome := Done;
      var after: Option<int>, more := None, true;
      while more
        invariant Standing() && Moved(from, outcome) && Booked(begun, work, outcome) && Explained(outcome)
        invariant Blinder(first, mode) && Grows(origin, Now(), mode)
        invariant more ==> outcome == Done && (after.Some? ==> SettledThrough(Now(), mode, after))
        invariant !more && outcome == Done ==> AllSettled(Now(), mode)
        decreases more, BucketsAhead(Now(), mode, after)
      {
        ghost var before, m := Now(), mode;
        var cursor;
        outcome, cursor := SyncPage(after, from);
        GrowsOn(origin, before, Now(), m, mode);
        more := outcome == Done && cursor.Some? && cursor.value <= mode.cutoff / mode.config.width;
        if cursor.Some? && !more {
          PagesDone(Now(), mode, cursor.value);
        }
        after := cursor;
      }
    }

    /**
    Reconcile the partition. Whatever the outcome, nothing is lost, each side gains only what the
    other owned, the budgets hold and the checkpoint covers only settled versions; a session that
    ends normally has settled every eligible version, and one stopped by a budget has moved its
    checkpoint past some version it had not passed. The repairs counted are what the sides gained,
    except that the peer may have gained more from a push that was not answered.
    */
    method SyncPid() returns (outcome: Outcome)
      requires Kept() && Comparable() && Covered(Now(), mode, position) && AtHome(mode, position)
      requires scanned == 0 && work.Repairs() == 0
      modifies this`mode, this`work, this`scanned, this`position
      ensures Standing() && AtHome(mode, position)
      ensures Blinder(old(mode), mode) && Grows(old(Now()), Now(), mode) && Left() <= old(Left())
      ensures outcome == Done ==> AllSettled(Now(), mode)
      ensures outcome == Spent && Funded() ==> Left() < old(Left())
      ensures Explained(outcome) && Counted(old(Now().local), Now().local, work.pulled, false)
      ensures Counted(old(Now().remote), Now().remote, work.pushed, outcome == Interrupted)
    {
      outcome := SyncPages(Left());
      SizeIsCount(Now().local.Keys);
      SizeIsCount(Now().remote.Keys);
      SizeIsCount(old(Now()).local.Keys);
      SizeIsCount(old(Now()).remote.Keys);
    }

    /** A later session with the same peer and view: fresh budgets, same checkpoint. */
    method Resume(answers: nat, lost: nat) returns (outcome: Outcome)
      requires Kept() && Comparable() && Covered(Now(), mode, position) && AtHome(mode, position)
      modifies this`mode, this`work, this`scanned, this`position
      ensures Standing() && AtHome(mode, position)
      ensures Blinder(old(mode), mode) && Grows(old(Now()), Now(), mode) && Left() <= old(Left())
      ensures outcome == Done ==> AllSettled(Now(), mode)
      ensures outcome == Spent && Funded() ==> Left() < old(Left())
      ensures Booked(old(work).(pushed := 0, pulled := 0), work, outcome) && Explained(outcome)
    {
      scanned := 0;
      work := work.(pushed := 0, pulled := 0, answers := answers, lost := lost);
      outcome := SyncPages(Left());
    }

    /** A chain of sessions that share a checkpoint, each stopped by a budget or a failure, until one ends. */
    method Reconcile(sessions: seq<(nat, nat)>) returns (outcome: Outcome)
      requires Standing() && AtHome(mode, position)
      modifies this`mode, this`work, this`scanned, this`position
      ensures Standing() && AtHome(mode, position)
      ensures Blinder(old(mode), mode) && Grows(old(Now()), Now(), mode)
      ensures outcome == Done ==> AllSettled(Now(), mode)
      ensures sessions != [] ==> Explained(outcome)
    {
      ghost var origin := Now();
      outcome := Interrupted;
      for i := 0 to |sessions|
        invariant Standing() && AtHome(mode, position)
        invariant Blinder(old(mode), mode) && Grows(origin, Now(), mode)
        invariant (outcome == Done ==> AllSettled(Now(), mode)) && (i > 0 ==> Explained(outcome))
      {
        if outcome == Done {
          return;
        }
        ghost var before, m := Now(), mode;
        outcome := Resume(sessions[i].0, sessions[i].1);
        GrowsOn(origin, before, Now(), m, mode);
      }
    }

    /** Sessions repeated for as long as a budget stops them come to an end. */
    method ReconcileAll(answers: nat, lost: nat) returns (outcome: Outcome)
      requires Kept() && Comparable() && Covered(Now(), mode, position) && AtHome(mode, position) && Funded()
      modifies this`mode, this`work, this`scanned, this`position
      ensures Standing()
      ensures Blinder(old(mode), mode) && Grows(old(Now()), Now(), mode)
      ensures outcome != Spent && (outcome == Done ==> AllSettled(Now(), mode)) && (outcome == Interrupted ==> work.answers == 0)
      decreases Left()
    {
      ghost var origin := Now();
      outcome := Resume(answers, lost);
      if outcome == Spent {
        ghost var before, m := Now(), mode;
        outcome := ReconcileAll(answers, lost);
        GrowsOn(origin, before, Now(), m, mode);
      }
    }
  }
}
