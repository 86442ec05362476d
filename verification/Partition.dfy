/**
Partitions of the hash space and the arcs of the ring that own them.

The space has `total * step` positions, `step` of them per partition. Routing gives a
partition to the successor of its end boundary; segments give the same answer by arithmetic.
*/
module Partition {
  import opened Codec
  import opened Ring

  datatype Partitioner = Partitioner(total: nat, step: nat)

  predicate Proper(p: Partitioner) {
    p.total >= 1 && p.step >= 1
  }

  function PidForHash(p: Partitioner, h: nat): nat
    requires Proper(p)
  {
    h / p.step
  }

  /** End boundary of a partition; the last one ends where the space begins. */
  function PartitionEnd(p: Partitioner, pid: nat): nat
    requires Proper(p)
  {
    MulPositive(p.total, p.step);
    ((pid + 1) * p.step) % (p.total * p.step)
  }

  lemma MulPositive(a: nat, b: nat)
    requires a >= 1 && b >= 1
    ensures a * b >= 1
  {
  }

  datatype Segment = Segment(lo: nat, hi: nat, owner: VNode)

  /** Pids in `(start, end]`, wrapping around; equal ends stand for the whole ring. */
  datatype Arc = Empty | Arc(start: nat, end: nat)

  datatype PartitionRange = PartitionRange(owner: VNode, pred: VNode, arc: Arc)

  function Linear(r: PartitionRange, total: nat): seq<Segment>
    requires total >= 1
  {
    match r.arc
    case Empty => []
    case Arc(start, end) =>
      if start == end then [Segment(0, total - 1, r.owner)]
      else if start < end then [Segment(start + 1, end, r.owner)]
      else [Segment(0, end, r.owner)] + (if start + 1 < total then [Segment(start + 1, total - 1, r.owner)] else [])
  }

  function ArcCount(arc: Arc, total: nat): int {
    match arc
    case Empty => 0
    case Arc(start, end) =>
      if start == end then total
      else if start < end then end - start
      else (total - start) + end
  }

  function ArcFor(p: Partitioner, pred: VNode, succ: VNode): Arc
    requires Proper(p)
  {
    var a, b := PidForHash(p, pred.token), PidForHash(p, succ.token);
    if pred.token == succ.token then Empty
    else if pred.token < succ.token && a == b then Empty
    else Arc((a - 1) % p.total, (b - 1) % p.total)
  }

  /** The ring lies in the hash space, in order. */
  predicate Placed(p: Partitioner, ring: seq<VNode>)
    requires Proper(p)
  {
    Sorted(ring) && forall i :: 0 <= i < |ring| ==> PidForHash(p, ring[i].token) < p.total
  }

  /** One vnode, or two different tokens. */
  predicate Separated(ring: seq<VNode>) {
    |ring| == 1 || (|ring| > 1 && ring[0].token != ring[|ring| - 1].token)
  }

  /** One range per vnode: it owns exactly the pids the successor rule routes to that vnode. */
  method RangesFor(p: Partitioner, ring: seq<VNode>) returns (ranges: seq<PartitionRange>)
    requires Proper(p)
    ensures ranges == Ranges(p, ring)
    ensures Placed(p, ring) && Separated(ring) ==>
      forall i, pid: nat :: 0 <= i < |ring| && pid < p.total ==> (InRange(ranges[i], p.total, pid) <==> RoutedAt(p, ring, pid, i))
  {
    ranges := [];
    if Placed(p, ring) && Separated(ring) {
      forall i, pid: nat | 0 <= i < |ring| && pid < p.total
        ensures InRange(Ranges(p, ring)[i], p.total, pid) <==> RoutedAt(p, ring, pid, i)
      {
        RangeOwnsRouted(p, ring, i, pid);
      }
    }
    if |ring| == 0 {
      return;
    }
    if |ring| == 1 {
      var pid := (PidForHash(p, ring[0].token) - 1) % p.total;
      return [PartitionRange(ring[0], ring[0], Arc(pid, pid))];
    }
    for i := 0 to |ring|
      invariant |ranges| == i
      invariant forall x :: 0 <= x < i ==> ranges[x] == RangeAt(p, ring, x)
    {
      var pred, succ := ring[if i == 0 then |ring| - 1 else i - 1], ring[i];
      ranges := ranges + [PartitionRange(succ, pred, ArcFor(p, pred, succ))];
    }
  }

  function RangeAt(p: Partitioner, ring: seq<VNode>, i: nat): PartitionRange
    requires Proper(p) && i < |ring|
  {
    var pred, succ := ring[if i == 0 then |ring| - 1 else i - 1], ring[i];
    PartitionRange(succ, pred, ArcFor(p, pred, succ))
  }

  function Ranges(p: Partitioner, ring: seq<VNode>): seq<PartitionRange>
    requires Proper(p)
  {
    if |ring| == 1 then
      var pid := (PidForHash(p, ring[0].token) - 1) % p.total;
      [PartitionRange(ring[0], ring[0], Arc(pid, pid))]
    else
      seq(|ring|, i requires 0 <= i < |ring| => RangeAt(p, ring, i))
  }

  // ------------------------------------------------------------- one range

  function PidAt(p: Partitioner, ring: seq<VNode>, i: nat): nat
    requires Proper(p) && i < |ring|
  {
    PidForHash(p, ring[i].token)
  }

  lemma MulMonotone(a: nat, b: nat, c: nat)
    requires a <= b
    ensures a * c <= b * c
  {
    assert b * c == a * c + (b - a) * c;
  }

  lemma PidBoundary(t: nat, pid: nat, step: nat)
    requires step >= 1
    ensures t < (pid + 1) * step <==> t / step <= pid
  {
    var q := t / step;
    var r := t % step;
    assert t == step * q + r && r < step;
    assert (q + 1) * step == q * step + step;
    if q <= pid {
      MulMonotone(q + 1, pid + 1, step);
    } else {
      MulMonotone(pid + 1, q, step);
    }
  }

  lemma PidsAscend(p: Partitioner, ring: seq<VNode>, i: nat, j: nat)
    requires Proper(p) && Placed(p, ring) && i <= j < |ring|
    ensures PidAt(p, ring, i) <= PidAt(p, ring, j)
  {
    PidBoundary(ring[j].token, PidAt(p, ring, j), p.step);
    PidBoundary(ring[i].token, PidAt(p, ring, j), p.step);
  }

  lemma ModOfPrevious(a: nat, total: nat)
    requires total >= 1 && a < total
    ensures (a - 1) % total == if a == 0 then total - 1 else a - 1
  {
    if a == 0 {
      assert (0 - 1) % total == total - 1 by {
        assert -1 == total * -1 + (total - 1);
      }
    }
  }

  /** A range after the first owns the pids from its predecessor's to just before its own. */
  lemma InnerRange(p: Partitioner, ring: seq<VNode>, i: nat)
    requires Proper(p) && Placed(p, ring) && 0 < i < |ring|
    ensures var a, b := PidAt(p, ring, i - 1), PidAt(p, ring, i);
            && a <= b
            && Linear(RangeAt(p, ring, i), p.total) == (if a < b then [Segment(a, b - 1, ring[i])] else [])
            && ArcCount(RangeAt(p, ring, i).arc, p.total) == b - a
  {
    var a, b := PidAt(p, ring, i - 1), PidAt(p, ring, i);
    PidsAscend(p, ring, i - 1, i);
    ModOfPrevious(a, p.total);
    ModOfPrevious(b, p.total);
    assert ring[i - 1].token <= ring[i].token;
  }

  /** The first range wraps around: it owns what lies before the first pid and from the last pid on. */
  lemma OuterRange(p: Partitioner, ring: seq<VNode>)
    requires Proper(p) && Placed(p, ring) && |ring| > 1 && Separated(ring)
    ensures var a, b := PidAt(p, ring, 0), PidAt(p, ring, |ring| - 1);
            && a <= b < p.total
            && Linear(RangeAt(p, ring, 0), p.total) ==
               (if a == b then [Segment(0, p.total - 1, ring[0])]
                else (if a > 0 then [Segment(0, a - 1, ring[0])] else []) + [Segment(b, p.total - 1, ring[0])])
            && ArcCount(RangeAt(p, ring, 0).arc, p.total) == a + (p.total - b)
  {
    var a, b := PidAt(p, ring, 0), PidAt(p, ring, |ring| - 1);
    PidsAscend(p, ring, 0, |ring| - 1);
    ModOfPrevious(a, p.total);
    ModOfPrevious(b, p.total);
    assert ring[0].token <= ring[|ring| - 1].token;
  }

  // -------------------------------------------------------------- segments

  /** Consecutive non-empty segments from `lo` to just before `hi`. */
  predicate Tiles(segments: seq<Segment>, lo: nat, hi: nat) {
    if |segments| == 0 then lo == hi
    else
      var last := segments[|segments| - 1];
      last.lo <= last.hi && last.hi + 1 == hi && lo <= last.lo && Tiles(segments[..|segments| - 1], lo, last.lo)
  }

  lemma TilesGain(segments: seq<Segment>, lo: nat, mid: nat, s: Segment)
    requires Tiles(segments, lo, mid) && lo <= mid && s.lo == mid && s.lo <= s.hi
    ensures Tiles(segments + [s], lo, s.hi + 1)
  {
    assert (segments + [s])[..|segments|] == segments;
  }

  /** Every pid of the segment is routed to its owner. */
  ghost predicate RoutesTo(p: Partitioner, ring: seq<VNode>, s: Segment)
    requires Proper(p) && |ring| > 0
  {
    forall pid: nat :: s.lo <= pid <= s.hi ==> s.owner == Successor(ring, PartitionEnd(p, pid))
  }

  lemma EndOf(p: Partitioner, pid: nat)
    requires Proper(p) && pid < p.total
    ensures PartitionEnd(p, pid) == if pid == p.total - 1 then 0 else (pid + 1) * p.step
  {
    MulPositive(p.total, p.step);
    MulMonotone(pid + 1, p.total, p.step);
    ModBelow((pid + 1) * p.step, p.total * p.step);
    if pid < p.total - 1 {
      MulMonotone(pid + 2, p.total, p.step);
      assert (pid + 2) * p.step == (pid + 1) * p.step + p.step;
    }
  }

  lemma ModBelow(x: nat, n: nat)
    requires n >= 1 && x <= n
    ensures x % n == if x == n then 0 else x
  {
  }

  lemma InnerRoutes(p: Partitioner, ring: seq<VNode>, i: nat)
    requires Proper(p) && Placed(p, ring) && 0 < i < |ring| && PidAt(p, ring, i - 1) < PidAt(p, ring, i)
    ensures RoutesTo(p, ring, Segment(PidAt(p, ring, i - 1), PidAt(p, ring, i) - 1, ring[i]))
  {
    forall pid: nat | PidAt(p, ring, i - 1) <= pid <= PidAt(p, ring, i) - 1
      ensures ring[i] == Successor(ring, PartitionEnd(p, pid))
    {
      EndOf(p, pid);
      PidBoundary(ring[i - 1].token, pid, p.step);
      PidBoundary(ring[i].token, pid, p.step);
      LowerUnique(ring, (pid + 1) * p.step, i);
    }
  }

  lemma OuterRoutes(p: Partitioner, ring: seq<VNode>, pid: nat)
    requires Proper(p) && Placed(p, ring) && |ring| > 0 && pid < p.total
    requires pid < PidAt(p, ring, 0) || pid >= PidAt(p, ring, |ring| - 1)
    ensures Successor(ring, PartitionEnd(p, pid)) == ring[0]
  {
    EndOf(p, pid);
    if pid == p.total - 1 {
      LowerUnique(ring, 0, 0);
    } else if pid < PidAt(p, ring, 0) {
      PidBoundary(ring[0].token, pid, p.step);
      LowerUnique(ring, (pid + 1) * p.step, 0);
    } else {
      PidBoundary(ring[|ring| - 1].token, pid, p.step);
      LowerUnique(ring, (pid + 1) * p.step, |ring|);
    }
  }

  /** The pid lies in one of the range's segments. */
  predicate InRange(r: PartitionRange, total: nat, pid: nat)
    requires total >= 1
  {
    exists s :: s in Linear(r, total) && s.lo <= pid <= s.hi
  }

  /** Routing sends the partition to the vnode at this index. */
  predicate RoutedAt(p: Partitioner, ring: seq<VNode>, pid: nat, i: nat)
    requires Proper(p) && |ring| > 0
  {
    SuccessorIndex(ring, PartitionEnd(p, pid)) == i
  }

  lemma InOne(r: PartitionRange, total: nat, s: Segment, pid: nat)
    requires total >= 1 && Linear(r, total) == [s]
    ensures InRange(r, total, pid) <==> s.lo <= pid <= s.hi
  {
    assert s in Linear(r, total);
  }

  /** Which pids are routed to an inner vnode. */
  lemma RoutedInner(p: Partitioner, ring: seq<VNode>, i: nat, pid: nat)
    requires Proper(p) && Placed(p, ring) && 0 < i < |ring| && pid < p.total
    ensures RoutedAt(p, ring, pid, i) <==> PidAt(p, ring, i - 1) <= pid < PidAt(p, ring, i)
  {
    EndOf(p, pid);
    if pid < p.total - 1 {
      PidBoundary(ring[i - 1].token, pid, p.step);
      PidBoundary(ring[i].token, pid, p.step);
      if PidAt(p, ring, i - 1) <= pid < PidAt(p, ring, i) {
        LowerUnique(ring, (pid + 1) * p.step, i);
      }
    }
  }

  /** Which pids are routed to the first vnode. */
  lemma RoutedOuter(p: Partitioner, ring: seq<VNode>, pid: nat)
    requires Proper(p) && Placed(p, ring) && |ring| > 0 && pid < p.total
    ensures RoutedAt(p, ring, pid, 0) <==> pid < PidAt(p, ring, 0) || pid >= PidAt(p, ring, |ring| - 1)
  {
    EndOf(p, pid);
    if pid == p.total - 1 {
      LowerUnique(ring, 0, 0);
    } else {
      PidBoundary(ring[0].token, pid, p.step);
      PidBoundary(ring[|ring| - 1].token, pid, p.step);
      if pid < PidAt(p, ring, 0) {
        LowerUnique(ring, (pid + 1) * p.step, 0);
      } else if pid >= PidAt(p, ring, |ring| - 1) {
        LowerUnique(ring, (pid + 1) * p.step, |ring|);
      }
    }
  }

  lemma RangeOwnsRouted(p: Partitioner, ring: seq<VNode>, i: nat, pid: nat)
    requires Proper(p) && Placed(p, ring) && Separated(ring) && i < |ring| && pid < p.total
    ensures InRange(Ranges(p, ring)[i], p.total, pid) <==> RoutedAt(p, ring, pid, i)
  {
    var r := Ranges(p, ring)[i];
    if i > 0 {
      InnerRange(p, ring, i);
      RoutedInner(p, ring, i, pid);
      var a, b := PidAt(p, ring, i - 1), PidAt(p, ring, i);
      if a < b {
        InOne(r, p.total, Segment(a, b - 1, ring[i]), pid);
      }
    } else {
      RoutedOuter(p, ring, pid);
      if |ring| == 1 {
        InOne(r, p.total, Segment(0, p.total - 1, ring[0]), pid);
      } else {
        OuterRange(p, ring);
        WrapsAround(r, p.total, PidAt(p, ring, 0), PidAt(p, ring, |ring| - 1), ring[0], pid);
      }
    }
  }

  lemma WrapsAround(r: PartitionRange, total: nat, a: nat, b: nat, owner: VNode, pid: nat)
    requires total >= 1 && a <= b < total && pid < total
    requires Linear(r, total) ==
             if a == b then [Segment(0, total - 1, owner)]
             else (if a > 0 then [Segment(0, a - 1, owner)] else []) + [Segment(b, total - 1, owner)]
    ensures InRange(r, total, pid) <==> pid < a || pid >= b
  {
    var linear := Linear(r, total);
    if a == b {
      InOne(r, total, linear[0], pid);
    } else {
      assert linear[|linear| - 1] == Segment(b, total - 1, owner) && linear[|linear| - 1] in linear;
      assert a > 0 ==> linear[0] == Segment(0, a - 1, owner) && linear[0] in linear;
    }
  }

  /** The segment that ends the space without starting it. */
  predicate IsTail(s: Segment, total: nat) {
    s.lo > 0 && s.hi == total - 1
  }

  function Kept(segments: seq<Segment>, total: nat): seq<Segment> {
    if |segments| == 0 then []
    else
      var last := segments[|segments| - 1];
      Kept(segments[..|segments| - 1], total) + (if IsTail(last, total) then [] else [last])
  }

  function HeldBack(segments: seq<Segment>, total: nat, tail: Option<Segment>): Option<Segment> {
    if |segments| == 0 then tail
    else
      var last := segments[|segments| - 1];
      if IsTail(last, total) then Some(last) else HeldBack(segments[..|segments| - 1], total, tail)
  }

  /** A ring seen through its pids: all the emission of segments depends on, and what counts as routed. */
  datatype Frame = Frame(total: nat, pids: seq<nat>, owners: seq<VNode>, separated: bool, routed: Segment -> bool)

  ghost predicate Proportioned(f: Frame) {
    && |f.pids| == |f.owners| > 0 && f.total >= 1
    && (forall i :: 0 <= i < |f.pids| ==> f.pids[i] < f.total)
    && (forall i, j :: 0 <= i < j < |f.pids| ==> f.pids[i] <= f.pids[j])
  }

  /** What has been emitted and held back once the first `i` ranges are consumed. */
  ghost predicate Shape(f: Frame, segments: seq<Segment>, tail: Option<Segment>, i: nat)
    requires Proportioned(f) && i <= |f.pids|
  {
    if i == 0 || !f.separated then segments == [] && tail == None
    else
      && (forall s :: s in segments ==> s.hi < f.total && f.routed(s))
      && var last := f.pids[|f.pids| - 1];
      if f.pids[0] == last then Tiles(segments, 0, f.total) && tail == None
      else
        && Tiles(segments, 0, f.pids[i - 1])
        && tail == Some(Segment(last, f.total - 1, f.owners[0])) && f.routed(tail.value)
  }

  lemma KeptOne(s: Segment, total: nat, tail: Option<Segment>)
    ensures Kept([s], total) == if IsTail(s, total) then [] else [s]
    ensures HeldBack([s], total, tail) == if IsTail(s, total) then Some(s) else tail
  {
    assert [s][..0] == [];
  }

  /** The first range owns the whole space. */
  lemma FullShape(f: Frame, linear: seq<Segment>)
    requires Proportioned(f) && f.separated && f.pids[0] == f.pids[|f.pids| - 1]
    requires linear == [Segment(0, f.total - 1, f.owners[0])] && f.routed(linear[0])
    ensures Shape(f, Kept(linear, f.total), HeldBack(linear, f.total, None), 1)
  {
    KeptOne(linear[0], f.total, None);
    TilesGain([], 0, 0, linear[0]);
  }

  /** The first range wraps around: its tail is held back. */
  lemma WrappedShape(f: Frame, linear: seq<Segment>)
    requires Proportioned(f) && f.separated && f.pids[0] < f.pids[|f.pids| - 1]
    requires var a, b := f.pids[0], f.pids[|f.pids| - 1];
             linear == (if a > 0 then [Segment(0, a - 1, f.owners[0])] else []) + [Segment(b, f.total - 1, f.owners[0])]
    requires forall s :: s in linear ==> f.routed(s)
    ensures Shape(f, Kept(linear, f.total), HeldBack(linear, f.total, None), 1)
  {
    var a, b := f.pids[0], f.pids[|f.pids| - 1];
    var after := Segment(b, f.total - 1, f.owners[0]);
    assert after in linear;
    if a > 0 {
      var before := Segment(0, a - 1, f.owners[0]);
      assert linear[..|linear| - 1] == [before] && before in linear;
      KeptOne(before, f.total, None);
      TilesGain([], 0, 0, before);
    } else {
      KeptOne(after, f.total, None);
      assert linear == [after];
    }
  }

  /** A range that owns nothing changes nothing. */
  lemma EmptyShape(f: Frame, segments: seq<Segment>, tail: Option<Segment>, i: nat)
    requires Proportioned(f) && 0 < i < |f.pids| && Shape(f, segments, tail, i) && (f.separated ==> f.pids[i - 1] == f.pids[i])
    ensures Shape(f, segments + Kept([], f.total), HeldBack([], f.total, tail), i + 1)
  {
    assert segments + [] == segments;
  }

  /** An inner range extends what was emitted. */
  lemma InnerShape(f: Frame, segments: seq<Segment>, tail: Option<Segment>, i: nat, linear: seq<Segment>)
    requires Proportioned(f) && 0 < i < |f.pids| && Shape(f, segments, tail, i) && f.separated && f.pids[i - 1] < f.pids[i]
    requires linear == [Segment(f.pids[i - 1], f.pids[i] - 1, f.owners[i])] && f.routed(linear[0])
    ensures Shape(f, segments + Kept(linear, f.total), HeldBack(linear, f.total, tail), i + 1)
  {
    var a, b, last, x := f.pids[i - 1], f.pids[i], f.pids[|f.pids| - 1], linear[0];
    assert i > 1 ==> f.pids[0] <= a;
    assert i < |f.pids| - 1 ==> b <= last;
    assert f.pids[0] < last;
    KeptOne(x, f.total, tail);
    TilesGain(segments, 0, a, x);
    var all := segments + [x];
    assert all == segments + Kept(linear, f.total) && HeldBack(linear, f.total, tail) == tail;
    forall s | s in all
      ensures s.hi < f.total && f.routed(s)
    {
      assert s in segments || s == x;
    }
  }

  ghost function FrameOf(p: Partitioner, ring: seq<VNode>): Frame
    requires Proper(p) && |ring| > 0
  {
    Frame(p.total, seq(|ring|, i requires 0 <= i < |ring| => PidAt(p, ring, i)), ring, Separated(ring), s => RoutesTo(p, ring, s))
  }

  lemma FrameFits(p: Partitioner, ring: seq<VNode>)
    requires Proper(p) && Placed(p, ring) && |ring| > 0
    ensures Proportioned(FrameOf(p, ring))
  {
    forall i, j | 0 <= i < j < |ring|
      ensures PidAt(p, ring, i) <= PidAt(p, ring, j)
    {
      PidsAscend(p, ring, i, j);
    }
  }

  lemma OuterSegmentsRoute(p: Partitioner, ring: seq<VNode>, s: Segment)
    requires Proper(p) && Placed(p, ring) && |ring| > 0 && s.owner == ring[0] && s.hi < p.total
    requires s.hi < PidAt(p, ring, 0) || s.lo >= PidAt(p, ring, |ring| - 1) || PidAt(p, ring, 0) == PidAt(p, ring, |ring| - 1)
    ensures RoutesTo(p, ring, s)
  {
    forall pid: nat | s.lo <= pid <= s.hi
      ensures s.owner == Successor(ring, PartitionEnd(p, pid))
    {
      OuterRoutes(p, ring, pid);
    }
  }

  lemma FirstShape(p: Partitioner, ring: seq<VNode>)
    requires Proper(p) && Placed(p, ring) && |ring| > 0 && Proportioned(FrameOf(p, ring))
    ensures var linear := Linear(Ranges(p, ring)[0], p.total);
            Shape(FrameOf(p, ring), Kept(linear, p.total), HeldBack(linear, p.total, None), 1)
  {
    var f, linear := FrameOf(p, ring), Linear(Ranges(p, ring)[0], p.total);
    if |ring| == 1 {
      OuterSegmentsRoute(p, ring, linear[0]);
      FullShape(f, linear);
    } else if Separated(ring) {
      OuterRange(p, ring);
      forall s | s in linear
        ensures f.routed(s)
      {
        OuterSegmentsRoute(p, ring, s);
      }
      if f.pids[0] == f.pids[|ring| - 1] {
        FullShape(f, linear);
      } else {
        WrappedShape(f, linear);
      }
    }
  }

  lemma NextShape(p: Partitioner, ring: seq<VNode>, segments: seq<Segment>, tail: Option<Segment>, i: nat)
    requires Proper(p) && Placed(p, ring) && 0 < i < |ring| && Proportioned(FrameOf(p, ring))
    requires Shape(FrameOf(p, ring), segments, tail, i)
    ensures var linear := Linear(Ranges(p, ring)[i], p.total);
            Shape(FrameOf(p, ring), segments + Kept(linear, p.total), HeldBack(linear, p.total, tail), i + 1)
  {
    var f, linear := FrameOf(p, ring), Linear(Ranges(p, ring)[i], p.total);
    InnerRange(p, ring, i);
    if f.pids[i - 1] < f.pids[i] {
      PidsDiffer(p, ring, i);
      InnerRoutes(p, ring, i);
      InnerShape(f, segments, tail, i, linear);
    } else {
      EmptyShape(f, segments, tail, i);
    }
  }

  lemma PidsDiffer(p: Partitioner, ring: seq<VNode>, i: nat)
    requires Proper(p) && Placed(p, ring) && 0 < i < |ring| && PidAt(p, ring, i - 1) < PidAt(p, ring, i)
    ensures Separated(ring)
  {
    assert ring[0].token <= ring[i - 1].token <= ring[i].token <= ring[|ring| - 1].token;
  }

  /** Emit the segments of one range, holding back the tail. */
  method Emit(linear: seq<Segment>, total: nat, before: seq<Segment>, held: Option<Segment>)
    returns (segments: seq<Segment>, tail: Option<Segment>)
    ensures segments == before + Kept(linear, total) && tail == HeldBack(linear, total, held)
  {
    segments, tail := before, held;
    for x := 0 to |linear|
      invariant segments == before + Kept(linear[..x], total) && tail == HeldBack(linear[..x], total, held)
    {
      assert linear[..x + 1][..x] == linear[..x];
      if linear[x].lo > 0 && linear[x].hi == total - 1 {
        tail := Some(linear[x]);
      } else {
        segments := segments + [linear[x]];
      }
    }
    assert linear[..|linear|] == linear;
  }

  lemma ShapeGrows(p: Partitioner, ring: seq<VNode>, segments: seq<Segment>, tail: Option<Segment>, i: nat)
    requires Proper(p) && Placed(p, ring) && i < |ring| && Proportioned(FrameOf(p, ring))
    requires Shape(FrameOf(p, ring), segments, tail, i)
    ensures var linear := Linear(Ranges(p, ring)[i], p.total);
            Shape(FrameOf(p, ring), segments + Kept(linear, p.total), HeldBack(linear, p.total, tail), i + 1)
  {
    if i == 0 {
      FirstShape(p, ring);
      var linear := Linear(Ranges(p, ring)[0], p.total);
      assert segments + Kept(linear, p.total) == Kept(linear, p.total);
    } else {
      NextShape(p, ring, segments, tail, i);
    }
  }

  /** At the end the tail completes the tiling. */
  lemma ShapeEnds(f: Frame, segments: seq<Segment>, tail: Option<Segment>)
    requires Proportioned(f) && Shape(f, segments, tail, |f.pids|)
    ensures var all := if tail.Some? then segments + [tail.value] else segments;
            && (Tiles(all, 0, f.total) <==> f.separated) && (forall s :: s in all ==> s.hi < f.total && f.routed(s))
            && (!f.separated ==> all == [])
  {
    if tail.Some? {
      TilesGain(segments, 0, f.pids[|f.pids| - 1], tail.value);
    }
  }

  /** Owner segments in ascending order; the one that ends the space without starting it comes last. */
  method SegmentsFor(p: Partitioner, ring: seq<VNode>) returns (segments: seq<Segment>)
    requires Proper(p) && Placed(p, ring)
    ensures Tiles(segments, 0, p.total) <==> Separated(ring)
    ensures forall s :: s in segments ==> |ring| > 0 && s.hi < p.total && RoutesTo(p, ring, s)
    ensures !Separated(ring) ==> segments == []
  {
    segments := [];
    if |ring| == 0 {
      return;
    }
    var ranges := RangesFor(p, ring);
    var tail: Option<Segment> := None;
    ghost var f := FrameOf(p, ring);
    FrameFits(p, ring);
    for i := 0 to |ranges|
      invariant Shape(f, segments, tail, i)
    {
      ShapeGrows(p, ring, segments, tail, i);
      segments, tail := Emit(Linear(ranges[i], p.total), p.total, segments, tail);
    }
    ShapeEnds(f, segments, tail);
    if tail.Some? {
      segments := segments + [tail.value];
    }
  }

  /** Number of pids the first `i` ranges own together. */
  function Owned(p: Partitioner, ring: seq<VNode>, i: nat): int
    requires Proper(p) && i <= |ring|
  {
    if i == 0 then 0 else Owned(p, ring, i - 1) + ArcCount(Ranges(p, ring)[i - 1].arc, p.total)
  }

  lemma {:induction false} OwnedSoFar(p: Partitioner, ring: seq<VNode>, i: nat)
    requires Proper(p) && Placed(p, ring) && |ring| > 1 && Separated(ring) && 0 < i <= |ring|
    ensures Owned(p, ring, i) == PidAt(p, ring, i - 1) + p.total - PidAt(p, ring, |ring| - 1)
  {
    if i == 1 {
      OuterRange(p, ring);
    } else {
      OwnedSoFar(p, ring, i - 1);
      InnerRange(p, ring, i - 1);
    }
  }

  lemma {:induction false} NothingOwned(p: Partitioner, ring: seq<VNode>, i: nat)
    requires Proper(p) && Placed(p, ring) && !Separated(ring) && i <= |ring|
    ensures Owned(p, ring, i) == 0
  {
    if i > 0 {
      NothingOwned(p, ring, i - 1);
      assert ring[0].token <= ring[i - 1].token <= ring[|ring| - 1].token;
      assert i > 1 ==> ring[0].token <= ring[i - 2].token;
    }
  }

  /** Arcs own every partition exactly once together, unless all of several vnodes share one token. */
  lemma ArcsCountTheSpace(p: Partitioner, ring: seq<VNode>)
    requires Proper(p) && Placed(p, ring)
    ensures Owned(p, ring, |ring|) == p.total <==> Separated(ring)
  {
    if |ring| > 1 && Separated(ring) {
      OwnedSoFar(p, ring, |ring|);
    } else if !Separated(ring) {
      NothingOwned(p, ring, |ring|);
    } else {
      assert Owned(p, ring, 1) == Owned(p, ring, 0) + ArcCount(Ranges(p, ring)[0].arc, p.total);
    }
  }

  /** In a tiling, every pid lies in exactly one segment. */
  lemma {:induction false} TilesCover(segments: seq<Segment>, lo: nat, hi: nat, pid: nat)
    requires Tiles(segments, lo, hi) && lo <= pid < hi
    ensures exists i :: 0 <= i < |segments| && segments[i].lo <= pid <= segments[i].hi
    ensures forall i, j :: 0 <= i < j < |segments| ==> segments[i].hi < segments[j].lo
  {
    var n := |segments| - 1;
    var last, rest := segments[n], segments[..n];
    TilesAscend(segments, lo, hi);
    if pid < last.lo {
      TilesCover(rest, lo, last.lo, pid);
      var i :| 0 <= i < |rest| && rest[i].lo <= pid <= rest[i].hi;
      assert segments[i].lo <= pid <= segments[i].hi;
    } else {
      assert segments[n].lo <= pid <= segments[n].hi;
    }
  }

  lemma {:induction false} TilesAscend(segments: seq<Segment>, lo: nat, hi: nat)
    requires Tiles(segments, lo, hi)
    ensures forall i :: 0 <= i < |segments| ==> lo <= segments[i].lo <= segments[i].hi < hi
    ensures forall i, j :: 0 <= i < j < |segments| ==> segments[i].hi < segments[j].lo
  {
    if |segments| > 0 {
      var n := |segments| - 1;
      TilesAscend(segments[..n], lo, segments[n].lo);
      assert forall i :: 0 <= i < n ==> segments[..n][i] == segments[i];
    }
  }

  /** Two vnodes on one token leave every partition without a segment. */
  lemma SharedTokenOwnsNothing(p: Partitioner, token: nat, a: NodeId, b: NodeId)
    requires Proper(p) && PidForHash(p, token) < p.total
    ensures var ring := [VNode(token, a), VNode(token, b)];
            Placed(p, ring) && Owned(p, ring, 2) == 0
  {
    NothingOwned(p, [VNode(token, a), VNode(token, b)], 2);
  }
}
