/**
One storage transaction of a partition group, and the fingerprints it maintains.

A `GroupSession` keeps one fingerprint per (pid, time bucket) and one per pid. It reads
each stored fingerprint once, accumulates deltas in memory and writes the sums back,
possibly several times before the transaction commits.
*/
module Session {
  import opened Codec
  import opened Versions
  import opened Digest

  datatype CellRef = Root(pid: int) | Bucket(pid: int, bucket: int)

  type Cells = map<CellRef, Cell>

  function BucketRef(k: Key, width: nat): CellRef
    requires width > 0
  {
    Bucket(k.pid, k.ts.wall / width)
  }

  /** The version is counted in the cell. */
  predicate Covers(ref: CellRef, k: Key, width: nat)
    requires width > 0
  {
    ref == Root(k.pid) || ref == BucketRef(k, width)
  }

  ghost function Members(keys: set<Key>, ref: CellRef, width: nat): set<Key>
    requires width > 0
  {
    set k | k in keys && Covers(ref, k, width)
  }

  function CellAt(cells: Cells, ref: CellRef): Cell {
    if ref in cells then cells[ref] else EMPTY
  }

  /** The stored cell is the fingerprint of its versions, and is absent exactly when there are none. */
  ghost predicate ExactAt(cells: Cells, ref: CellRef, keys: set<Key>, of: Key -> Cell, width: nat)
    requires width > 0
  {
    && CellAt(cells, ref) == Sum(of, Members(keys, ref, width))
    && (ref in cells <==> Members(keys, ref, width) != {})
  }

  ghost predicate Exact(cells: Cells, keys: set<Key>, of: Key -> Cell, width: nat)
    requires width > 0
  {
    forall ref :: ExactAt(cells, ref, keys, of, width)
  }

  // ------------------------------------------------- members of a cell

  lemma MembersGain(keys: set<Key>, k: Key, ref: CellRef, width: nat, of: Key -> Cell)
    requires width > 0 && k !in keys
    ensures Sum(of, Members(keys + {k}, ref, width)) ==
            if Covers(ref, k, width) then Add(Sum(of, Members(keys, ref, width)), of(k))
            else Sum(of, Members(keys, ref, width))
  {
    var m := Members(keys, ref, width);
    if Covers(ref, k, width) {
      assert Members(keys + {k}, ref, width) == m + {k};
      SumInsert(of, m, k);
    } else {
      assert Members(keys + {k}, ref, width) == m;
    }
  }

  lemma MembersLose(keys: set<Key>, k: Key, ref: CellRef, width: nat, of: Key -> Cell)
    requires width > 0 && k in keys
    ensures Sum(of, Members(keys - {k}, ref, width)) ==
            if Covers(ref, k, width) then Sub(Sum(of, Members(keys, ref, width)), of(k))
            else Sum(of, Members(keys, ref, width))
  {
    var m := Members(keys, ref, width);
    if Covers(ref, k, width) {
      assert Members(keys - {k}, ref, width) == m - {k};
      SumRemove(of, m, k);
    } else {
      assert Members(keys - {k}, ref, width) == m;
    }
  }

  // ------------------------------------------------------------- session

  class GroupSession {
    const layout: Layout
    const of: Key -> Cell
    const width: nat

    var tags: map<Key, Tag>
    var logs: map<Key, Value>
    var cells: Cells
    /** Cells as stored before this transaction, each read once. */
    var stored: Cells
    /** Total change of each cell since then. */
    var deltas: Cells

    function Contents(): Store
      requires tags.Keys == logs.Keys
      reads this
    {
      map k | k in tags :: Entry(tags[k], logs[k])
    }

    /** Stored cell plus delta is the fingerprint of `keys`; untouched cells are exact. */
    ghost predicate AccountsAt(ref: CellRef, keys: set<Key>)
      requires width > 0
      reads this`cells, this`stored, this`deltas
    {
      if ref in deltas then
        ref in stored && Add(stored[ref], deltas[ref]) == Sum(of, Members(keys, ref, width))
      else
        ExactAt(cells, ref, keys, of, width) && (ref in stored ==> stored[ref] == CellAt(cells, ref))
    }

    ghost predicate Accounts(keys: set<Key>)
      requires width > 0
      reads this`cells, this`stored, this`deltas
    {
      forall ref :: AccountsAt(ref, keys)
    }

    ghost predicate Valid()
      reads this
    {
      && width > 0 && Lawful(layout) && Counting(of)
      && tags.Keys == logs.Keys
      && Accounts(OwnedKeys(Contents()))
    }

    /** Begin a transaction on committed state. */
    constructor (layout: Layout, of: Key -> Cell, width: nat, store: Store, cells: Cells)
      requires width > 0 && Lawful(layout) && Counting(of)
      requires Exact(cells, OwnedKeys(store), of, width)
      ensures Valid() && Contents() == store && this.cells == cells
      ensures this.layout == layout && this.of == of && this.width == width
    {
      this.layout := layout;
      this.of := of;
      this.width := width;
      this.tags := map k | k in store :: store[k].tag;
      this.logs := map k | k in store :: store[k].value;
      this.cells := cells;
      this.stored := map[];
      this.deltas := map[];
      new;
      assert Contents() == store;
    }

    /** Read the cells of `refs` that were not read yet. */
    method Preload(refs: set<CellRef>)
      requires width > 0
      modifies this`stored
      ensures refs <= stored.Keys
      ensures forall keys :: old(Accounts(keys)) ==> Accounts(keys)
    {
      var unknown := refs - stored.Keys;
      stored := stored + (map ref | ref in unknown :: CellAt(cells, ref));
      forall keys | old(Accounts(keys))
        ensures Accounts(keys)
      {
        forall ref
          ensures AccountsAt(ref, keys)
        {
          assert old(AccountsAt(ref, keys));
        }
      }
    }

    /** Add (or take away) one version in the deltas of its two cells. */
    method Fold(k: Key, gained: bool, ghost keys: set<Key>)
      requires width > 0 && {Root(k.pid), BucketRef(k, width)} <= stored.Keys
      requires Accounts(keys) && (k in keys <==> !gained)
      modifies this`deltas
      ensures Accounts(if gained then keys + {k} else keys - {k})
    {
      var before := deltas;
      var root, bucket := Root(k.pid), BucketRef(k, width);
      var change := (d: Cell) => if gained then Add(d, of(k)) else Sub(d, of(k));
      deltas := deltas[root := change(CellAt(deltas, root))];
      deltas := deltas[bucket := change(CellAt(deltas, bucket))];
      ghost var after := if gained then keys + {k} else keys - {k};
      forall ref
        ensures AccountsAt(ref, after)
      {
        assert old(AccountsAt(ref, keys));
        FoldAt(ref, k, gained, keys, after, before);
      }
    }

    lemma FoldAt(ref: CellRef, k: Key, gained: bool, keys: set<Key>, after: set<Key>, before: Cells)
      requires width > 0 && (k in keys <==> !gained)
      requires after == if gained then keys + {k} else keys - {k}
      requires ref in before ==> ref in stored && Add(stored[ref], before[ref]) == Sum(of, Members(keys, ref, width))
      requires ref !in before ==> ExactAt(cells, ref, keys, of, width)
      requires ref !in before && ref in stored ==> stored[ref] == CellAt(cells, ref)
      requires Covers(ref, k, width) ==> ref in stored && ref in deltas
      requires Covers(ref, k, width) ==>
                 deltas[ref] == if gained then Add(CellAt(before, ref), of(k)) else Sub(CellAt(before, ref), of(k))
      requires !Covers(ref, k, width) ==> (ref in deltas <==> ref in before)
      requires !Covers(ref, k, width) && ref in deltas ==> deltas[ref] == before[ref]
      ensures AccountsAt(ref, after)
    {
      if gained {
        MembersGain(keys, k, ref, width, of);
      } else {
        MembersLose(keys, k, ref, width, of);
      }
      if Covers(ref, k, width) {
        var s, d := stored[ref], CellAt(before, ref);
        AddCancels(s, EMPTY);
        AddAssociates(s, d, of(k));
        AddSub(s, d, of(k));
      } else {
        assert Members(after, ref, width) == Members(keys, ref, width);
      }
    }

    /** Insert tags and values where absent. */
    method InsertAbsent(records: seq<Record>) returns (written: seq<bool>)
      requires tags.Keys == logs.Keys
      modifies this`tags, this`logs
      ensures tags.Keys == logs.Keys
      ensures Contents() == InsertAll(old(Contents()), records)
      ensures written == Written(old(Contents()), records)
    {
      ghost var before := Contents();
      written := [];
      for i := 0 to |records|
        invariant tags.Keys == logs.Keys
        invariant Contents() == InsertAll(before, records[..i])
        invariant written == Written(before, records[..i])
      {
        var r := records[i];
        assert records[..i + 1][..i] == records[..i];
        var isNew := r.key !in tags;
        if isNew {
          tags := tags[r.key := r.entry.tag];
        }
        if r.key !in logs {
          logs := logs[r.key := r.entry.value];
        }
        written := written + [isNew];
        assert Contents() == Insert(InsertAll(before, records[..i]), r);
      }
      assert records[..|records|] == records;
    }

    /** One batch: insert, and read the cells needed later. */
    method InsertBatch(records: seq<Record>) returns (written: seq<bool>)
      requires Valid()
      modifies this`tags, this`logs, this`stored
      ensures tags.Keys == logs.Keys
      ensures Contents() == InsertAll(old(Contents()), records)
      ensures written == Written(old(Contents()), records)
      ensures Accounts(old(OwnedKeys(Contents())))
      ensures forall i :: 0 <= i < |records| && OwnedTag(records[i].entry.tag) ==>
                {Root(records[i].key.pid), BucketRef(records[i].key, width)} <= stored.Keys
    {
      var roots := set i | 0 <= i < |records| && OwnedTag(records[i].entry.tag) :: Root(records[i].key.pid);
      var buckets := set i | 0 <= i < |records| && OwnedTag(records[i].entry.tag) :: BucketRef(records[i].key, width);
      Preload(roots + buckets);
      written := InsertAbsent(records);
    }

    /** Write versions in one batch; a version already stored changes nothing and is not folded again. */
    method PutMany(records: seq<Record>) returns (written: seq<bool>)
      requires Valid()
      modifies this`tags, this`logs, this`stored, this`deltas
      ensures Valid()
      ensures Contents() == InsertAll(old(Contents()), records)
      ensures written == Written(old(Contents()), records)
    {
      if records == [] {
        return [];
      }
      ghost var before := Contents();
      written := InsertBatch(records);
      ghost var done := OwnedKeys(before);
      for i := 0 to |records|
        modifies this`deltas
        invariant done == OwnedKeys(InsertAll(before, records[..i]))
        invariant Accounts(done)
      {
        var r := records[i];
        OwnedGrows(before, records, i);
        if written[i] && OwnedTag(r.entry.tag) {
          Fold(r.key, true, done);
          done := done + {r.key};
        }
      }
      assert records[..|records|] == records;
    }

    /** Remove the owned versions among `keys`, with their part in the cells. */
    method Remove(keys: seq<Key>) returns (count: nat)
      requires Valid()
      modifies this`tags, this`logs, this`stored, this`deltas
      ensures Valid()
      ensures Contents() == old(Contents()) - OwnedAmong(old(Contents()), keys)
      ensures count == |OwnedAmong(old(Contents()), keys)|
    {
      ghost var before := Contents();
      var candidates: set<Key> := {};
      for i := 0 to |keys|
        invariant candidates == OwnedAmong(before, keys[..i])
      {
        if keys[i] in tags && OwnedTag(tags[keys[i]]) {
          candidates := candidates + {keys[i]};
        }
      }
      assert keys[..|keys|] == keys;
      count := |candidates|;
      RemoveRecords(candidates);
    }

    method RemoveRecords(candidates: set<Key>)
      requires Valid() && candidates <= OwnedKeys(Contents())
      modifies this`tags, this`logs, this`stored, this`deltas
      ensures Valid() && Contents() == old(Contents()) - candidates
    {
      ghost var owned := OwnedKeys(Contents());
      UnfoldAll(candidates, owned);
      tags := tags - candidates;
      logs := logs - candidates;
      assert OwnedKeys(Contents()) == owned - candidates;
    }

    method UnfoldAll(candidates: set<Key>, ghost keys: set<Key>)
      requires width > 0 && candidates <= keys && Accounts(keys)
      modifies this`stored, this`deltas
      ensures Accounts(keys - candidates)
    {
      Preload((set k | k in candidates :: Root(k.pid)) + (set k | k in candidates :: BucketRef(k, width)));
      assert forall k :: k in candidates ==> {Root(k.pid), BucketRef(k, width)} <= stored.Keys;
      var rest := candidates;
      ghost var left := keys;
      while rest != {}
        modifies this`deltas
        invariant rest <= candidates && rest <= left && left - rest == keys - candidates
        invariant Accounts(left)
        decreases rest
      {
        var k :| k in rest;
        Fold(k, false, left);
        left := left - {k};
        rest := rest - {k};
      }
      assert left == keys - candidates;
    }

    /** Write the sums of stored cells and deltas; may be repeated, before or after more writes. */
    method Flush()
      requires Valid()
      modifies this`cells
      ensures Valid() && Exact(cells, OwnedKeys(Contents()), of, width)
    {
      var todo := deltas.Keys;
      ghost var keys := OwnedKeys(Contents());
      assert forall ref :: AccountsAt(ref, keys);
      while todo != {}
        invariant todo <= deltas.Keys
        invariant forall ref :: AccountsAt(ref, keys)
        invariant forall ref :: ref in deltas && ref !in todo ==> ExactAt(cells, ref, keys, of, width)
        decreases todo
      {
        var ref :| ref in todo;
        FlushCell(ref, keys);
        todo := todo - {ref};
      }
      forall ref
        ensures ExactAt(cells, ref, keys, of, width)
      {
        assert AccountsAt(ref, keys);
      }
    }

    method FlushCell(ref: CellRef, ghost keys: set<Key>)
      requires width > 0 && Counting(of) && ref in deltas && Accounts(keys)
      modifies this`cells
      ensures Accounts(keys) && ExactAt(cells, ref, keys, of, width)
      ensures forall other :: other != ref ==> CellAt(cells, other) == old(CellAt(cells, other))
      ensures forall other :: other != ref ==> (other in cells <==> other in old(cells))
    {
      assert AccountsAt(ref, keys);
      var cell := Add(stored[ref], deltas[ref]);
      SumCount(of, Members(keys, ref, width));
      cells := if cell == EMPTY then cells - {ref} else cells[ref := cell];
      forall other
        ensures AccountsAt(other, keys)
      {
        assert old(AccountsAt(other, keys));
      }
    }
  }

  function OwnedAmong(s: Store, keys: seq<Key>): set<Key> {
    set k | k in keys && Owned(s, k)
  }

  lemma OwnedAmongGain(s: Store, keys: seq<Key>, k: Key)
    ensures OwnedAmong(s, keys + [k]) == OwnedAmong(s, keys) + (if Owned(s, k) then {k} else {})
  {
  }

  lemma {:induction false} OwnedAmongSize(s: Store, keys: seq<Key>)
    ensures |OwnedAmong(s, keys)| <= |keys|
  {
    if |keys| > 0 {
      var init := keys[..|keys| - 1];
      OwnedAmongSize(s, init);
      assert keys == init + [keys[|keys| - 1]];
      OwnedAmongGain(s, init, keys[|keys| - 1]);
    }
  }

  /** The owned versions grow by the record just written, if it was written and is owned. */
  lemma OwnedGrows(s: Store, rs: seq<Record>, i: nat)
    requires i < |rs|
    ensures OwnedKeys(InsertAll(s, rs[..i + 1])) == OwnedKeys(InsertAll(s, rs[..i]))
            + (if Written(s, rs)[i] && OwnedTag(rs[i].entry.tag) then {rs[i].key} else {})
    ensures Written(s, rs)[i] ==> rs[i].key !in OwnedKeys(InsertAll(s, rs[..i]))
  {
    WrittenAt(s, rs, i);
    var upto := rs[..i + 1];
    assert upto[..|upto| - 1] == rs[..i] && upto[|upto| - 1] == rs[i];
    OwnedGain(InsertAll(s, rs[..i]), rs[i]);
  }

  lemma OwnedGain(s: Store, r: Record)
    ensures OwnedKeys(Insert(s, r)) == OwnedKeys(s) + (if r.key !in s && OwnedTag(r.entry.tag) then {r.key} else {})
  {
  }

  lemma {:induction false} WrittenAt(s: Store, rs: seq<Record>, i: nat)
    requires i < |rs|
    ensures Written(s, rs)[i] == (rs[i].key !in InsertAll(s, rs[..i]))
  {
    if i < |rs| - 1 {
      var init := rs[..|rs| - 1];
      WrittenAt(s, init, i);
      assert init[..i] == rs[..i];
    }
  }

  // -------------------------------------------------------- transactions

  datatype Op = Put(records: seq<Record>) | Drop(keys: seq<Key>) | FlushCells

  function Effect(s: Store, op: Op): Store {
    match op
    case Put(records) => InsertAll(s, records)
    case Drop(keys) => s - OwnedAmong(s, keys)
    case FlushCells => s
  }

  function Effects(s: Store, ops: seq<Op>): Store {
    if |ops| == 0 then s else Effect(Effects(s, ops[..|ops| - 1]), ops[|ops| - 1])
  }

  /** Any run of writes, removals and flushes, then the flush before commit, leaves every cell exact. */
  method Transaction(layout: Layout, of: Key -> Cell, width: nat, store: Store, cells: Cells, ops: seq<Op>)
    returns (store': Store, cells': Cells)
    requires width > 0 && Lawful(layout) && Counting(of)
    requires Exact(cells, OwnedKeys(store), of, width)
    ensures store' == Effects(store, ops)
    ensures Exact(cells', OwnedKeys(store'), of, width)
  {
    var session := new GroupSession(layout, of, width, store, cells);
    for i := 0 to |ops|
      invariant session.Valid() && session.of == of && session.width == width
      invariant fresh(session)
      invariant session.Contents() == Effects(store, ops[..i])
    {
      assert ops[..i + 1][..i] == ops[..i];
      match ops[i]
      case Put(records) => var _ := session.PutMany(records);
      case Drop(keys) => var _ := session.Remove(keys);
      case FlushCells => session.Flush();
    }
    assert ops[..|ops|] == ops;
    session.Flush();
    store', cells' := session.Contents(), session.cells;
  }

  /** Exact cells depend on the owned versions alone, never on the history that led to them. */
  lemma CellsForgetHistory(c: Cells, d: Cells, keys: set<Key>, of: Key -> Cell, width: nat)
    requires width > 0 && Exact(c, keys, of, width) && Exact(d, keys, of, width)
    ensures c == d
  {
    forall ref
      ensures ref in c <==> ref in d
      ensures ref in c ==> c[ref] == d[ref]
    {
      assert ExactAt(c, ref, keys, of, width) && ExactAt(d, ref, keys, of, width);
    }
  }

  // ---------------------------------------------------------------- roots

  ghost function BucketRefs(cells: Cells, pid: int): set<CellRef> {
    set ref | ref in cells && ref.Bucket? && ref.pid == pid
  }

  /** The root of a pid is the combination of its bucket cells. */
  lemma RootCombinesBuckets(cells: Cells, keys: set<Key>, of: Key -> Cell, width: nat, pid: int)
    requires width > 0 && Exact(cells, keys, of, width)
    ensures CellAt(cells, Root(pid)) == Sum((ref: CellRef) => CellAt(cells, ref), BucketRefs(cells, pid))
  {
    var f := (ref: CellRef) => CellAt(cells, ref);
    var refs := BucketRefs(cells, pid);
    assert forall ref :: ref in refs ==> ExactAt(cells, ref, keys, of, width);
    BucketsCombine(keys, of, width, refs, f);
    forall k | k in keys && k.pid == pid
      ensures BucketRef(k, width) in refs
    {
      assert k in Members(keys, BucketRef(k, width), width);
      assert ExactAt(cells, BucketRef(k, width), keys, of, width);
    }
    assert Members(keys, Root(pid), width) == InBuckets(keys, refs, width);
    assert ExactAt(cells, Root(pid), keys, of, width);
  }

  ghost function InBuckets(keys: set<Key>, refs: set<CellRef>, width: nat): set<Key>
    requires width > 0
  {
    set k | k in keys && BucketRef(k, width) in refs
  }

  lemma InBucketsGain(keys: set<Key>, refs: set<CellRef>, ref: CellRef, width: nat)
    requires width > 0 && ref.Bucket? && ref !in refs
    ensures InBuckets(keys, refs + {ref}, width) == InBuckets(keys, refs, width) + Members(keys, ref, width)
    ensures InBuckets(keys, refs, width) !! Members(keys, ref, width)
  {
  }

  lemma {:induction false} BucketsCombine(keys: set<Key>, of: Key -> Cell, width: nat, refs: set<CellRef>, f: CellRef -> Cell)
    requires width > 0
    requires forall ref :: ref in refs ==> ref.Bucket? && f(ref) == Sum(of, Members(keys, ref, width))
    ensures Sum(f, refs) == Sum(of, InBuckets(keys, refs, width))
    decreases |refs|
  {
    if refs == {} {
      assert InBuckets(keys, refs, width) == {};
    } else {
      var ref :| ref in refs;
      var rest := refs - {ref};
      BucketsCombine(keys, of, width, rest, f);
      assert refs == rest + {ref};
      SumInsert(f, rest, ref);
      InBucketsGain(keys, rest, ref, width);
      SumUnion(of, InBuckets(keys, rest, width), Members(keys, ref, width));
    }
  }
}
