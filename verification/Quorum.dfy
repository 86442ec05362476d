/**
Quorum reads and writes over one preference list: when a read is sure to see an
acknowledged write.
*/
module Quorum {
  import opened Codec
  import opened Handoff
  import opened Placement
  import opened Retention
  import opened Scan
  import opened Topology
  import opened Versions

  // ----------------------------------------------------------- store runs

  ghost function Run(s: Store, o: Layout, n: nat, ops: seq<StoreOp>): Store
    requires Lawful(o)
  {
    if |ops| == 0 then s else Operate(Run(s, o, n, ops[..|ops| - 1]), o, n, ops[|ops| - 1])
  }

  /** Whatever a replica does afterwards, it keeps an acknowledged version or something newer. */
  lemma {:induction false} RunReaches(s: Store, o: Layout, n: nat, ops: seq<StoreOp>, w: Key)
    requires Lawful(o) && n >= 1 && Reaches(s, o, w)
    ensures Reaches(Run(s, o, n, ops), o, w)
  {
    if |ops| > 0 {
      RunReaches(s, o, n, ops[..|ops| - 1], w);
      OperateReaches(Run(s, o, n, ops[..|ops| - 1]), o, n, ops[|ops| - 1], w);
    }
  }

  // ---------------------------------------------------------------- reads

  /** Nodes a read of one owner asks. */
  function SourcesOf(x: Preference): set<NodeId> {
    (if x.readable then {x.node} else {}) + (if x.handoff.Some? then {x.handoff.value} else {})
  }

  predicate Counts(x: Preference, answered: set<NodeId>, pending: set<NodeId>) {
    SourcesOf(x) * answered != {} && SourcesOf(x) * pending == {}
  }

  /** The owner or its substitute answered, and neither is still awaited; an owner that cannot be read is not asked. */
  predicate Responded(x: Preference, answered: set<NodeId>, pending: set<NodeId>) {
    && ((x.readable && x.node in answered) || (x.handoff.Some? && x.handoff.value in answered))
    && (x.readable ==> x.node !in pending) && (x.handoff.Some? ==> x.handoff.value !in pending)
  }

  lemma CountsMeans(x: Preference, answered: set<NodeId>, pending: set<NodeId>)
    ensures Counts(x, answered, pending) <==> Responded(x, answered, pending)
  {
    var sources := SourcesOf(x);
    assert x.readable <==> x.readable && x.node in sources;
    assert x.handoff.Some? ==> x.handoff.value in sources;
    forall n | n in sources
      ensures (x.readable && n == x.node) || (x.handoff.Some? && n == x.handoff.value)
    {
    }
    assert sources * answered != {} <==> exists n :: n in sources && n in answered by {
      if n :| n in sources && n in answered {
        assert n in sources * answered;
      }
    }
    assert sources * pending == {} <==> forall n :: n in sources ==> n !in pending by {
      if n :| n in sources && n in pending {
        assert n in sources * pending;
      }
    }
  }

  /** Owners with an answer and no source still awaited. */
  function Counted(preferences: seq<Preference>, answered: set<NodeId>, pending: set<NodeId>): (counted: set<nat>)
    ensures forall i: nat :: i in counted <==> i < |preferences| && Counts(preferences[i], answered, pending)
  {
    if |preferences| == 0 then {}
    else
      var n := |preferences| - 1;
      Counted(preferences[..n], answered, pending) + (if Counts(preferences[n], answered, pending) then {n} else {})
  }

  /** Owners all of whose sources answered. */
  function Settled(preferences: seq<Preference>, answered: set<NodeId>): set<nat> {
    set i: nat | i < |preferences| && SourcesOf(preferences[i]) != {} && SourcesOf(preferences[i]) <= answered
  }

  method ReadResponseCount(preferences: seq<Preference>, answered: set<NodeId>, pending: set<NodeId>) returns (count: nat)
    ensures count == |Counted(preferences, answered, pending)|
    ensures count == |set i: nat | i < |preferences| && Responded(preferences[i], answered, pending)|
  {
    count := 0;
    for i := 0 to |preferences|
      invariant count == |Counted(preferences[..i], answered, pending)|
    {
      assert preferences[..i + 1][..i] == preferences[..i];
      if Counts(preferences[i], answered, pending) {
        count := count + 1;
      }
    }
    assert preferences[..|preferences|] == preferences;
    CountedAreResponded(preferences, answered, pending);
  }

  /** The owners counted, without naming how. */
  lemma CountedAreResponded(preferences: seq<Preference>, answered: set<NodeId>, pending: set<NodeId>)
    ensures Counted(preferences, answered, pending) == set i: nat | i < |preferences| && Responded(preferences[i], answered, pending)
  {
    forall i: nat | i < |preferences|
      ensures Counts(preferences[i], answered, pending) <==> Responded(preferences[i], answered, pending)
    {
      CountsMeans(preferences[i], answered, pending);
    }
  }

  /** While no source fails, the owners counted are those whose sources all answered. */
  lemma CountedSettle(preferences: seq<Preference>, answered: set<NodeId>, pending: set<NodeId>)
    requires answered !! pending
    ensures Settled(preferences, answered) <= Counted(preferences, answered, pending)
    ensures (forall i :: 0 <= i < |preferences| ==> SourcesOf(preferences[i]) <= answered + pending) ==>
              Counted(preferences, answered, pending) == Settled(preferences, answered)
  {
    forall i | i in Settled(preferences, answered)
      ensures i in Counted(preferences, answered, pending)
    {
      var n :| n in SourcesOf(preferences[i]);
      assert n in SourcesOf(preferences[i]) * answered;
    }
  }

  // ------------------------------------------------------------- election

  datatype Version = Version(key: Key, value: Value)

  /** The rank of a version is its timestamp first. */
  ghost predicate Ranks(rank: Version -> real, o: Layout) {
    forall a: Version, b: Version :: PlaceOf(a.key) == PlaceOf(b.key) && o.hlc(a.key) < o.hlc(b.key) ==> rank(a) < rank(b)
  }

  ghost predicate Wins(rank: Version -> real, versions: seq<Version>, winner: Version) {
    winner in versions && forall v :: v in versions ==> rank(v) <= rank(winner)
  }

  method SelectVersion(rank: Version -> real, versions: seq<Version>) returns (winner: Option<Version>, count: nat)
    ensures winner.None? <==> versions == []
    ensures winner.Some? ==> Wins(rank, versions, winner.value) && count == multiset(versions)[winner.value]
    ensures winner.None? ==> count == 0
  {
    if |versions| == 0 {
      return None, 0;
    }
    var best := versions[0];
    for i := 1 to |versions|
      invariant Wins(rank, versions[..i], best)
    {
      assert versions[..i + 1] == versions[..i] + [versions[i]];
      if rank(versions[i]) > rank(best) {
        best := versions[i];
      }
    }
    assert versions[..|versions|] == versions;
    count := 0;
    for i := 0 to |versions|
      invariant count == multiset(versions[..i])[best]
    {
      assert versions[..i + 1] == versions[..i] + [versions[i]];
      if versions[i] == best {
        count := count + 1;
      }
    }
    assert versions[..|versions|] == versions;
    winner := Some(best);
  }

  /** What a node answers: its last version of the address, if it has one. */
  ghost predicate Answers(s: Store, o: Layout, p: Place, answer: Option<Record>) {
    if VersionsAt(s, p) == {} then answer.None?
    else answer.Some? && IsLatest(s, o, p, answer.value.key) && s[answer.value.key] == answer.value.entry
  }

  ghost predicate Honest(stores: NodeId -> Store, o: Layout, p: Place, answers: map<NodeId, Option<Record>>) {
    forall n :: n in answers ==> Answers(stores(n), o, p, answers[n])
  }

  /** Owned versions among the answers. */
  ghost predicate Visible(answers: map<NodeId, Option<Record>>, versions: seq<Version>) {
    && (forall n :: n in answers && answers[n].Some? && OwnedTag(answers[n].value.entry.tag) ==>
          Version(answers[n].value.key, answers[n].value.entry.value) in versions)
    && (forall v :: v in versions ==>
          exists n :: n in answers && answers[n].Some? && v == Version(answers[n].value.key, answers[n].value.entry.value))
  }

  /** Only owned versions are stored, and byte order is time order among them. */
  ghost predicate Tidy(s: Store, o: Layout) {
    AllOwned(s) && OrdersAgree(o, s.Keys)
  }

  /** A read that hears one node the write reached elects a version at least as new. */
  lemma HearingOneSuffices(o: Layout, rank: Version -> real, stores: NodeId -> Store, w: Key, n: NodeId,
                           answers: map<NodeId, Option<Record>>, versions: seq<Version>, winner: Version)
    requires Lawful(o) && Ranks(rank, o) && Honest(stores, o, PlaceOf(w), answers) && Visible(answers, versions)
    requires n in answers && Tidy(stores(n), o) && Reaches(stores(n), o, w)
    requires Wins(rank, versions, winner)
    ensures NoOlderThan(o, w, winner.key)
  {
    var s := stores(n);
    assert Answers(s, o, PlaceOf(w), answers[n]);
    var j :| j in s && NoOlderThan(o, w, j);
    assert j in VersionsAt(s, PlaceOf(w));
    var r := answers[n].value;
    LatestReaches(s, o, w, r.key);
    assert Version(r.key, r.entry.value) in versions;
    var m :| m in answers && answers[m].Some? && winner == Version(answers[m].value.key, answers[m].value.entry.value);
    assert Answers(stores(m), o, PlaceOf(w), answers[m]);
    assert PlaceOf(winner.key) == PlaceOf(w);
    assert rank(Version(r.key, r.entry.value)) <= rank(winner);
  }

  // --------------------------------------------------------- intersection

  /** Writability implies readability, as the phases of owners have it. */
  predicate Sensible(preferences: seq<Preference>) {
    forall i :: 0 <= i < |preferences| && preferences[i].writable ==> preferences[i].readable
  }

  lemma PreferencesSensible(t: View, owners: seq<NodeId>, candidates: seq<NodeId>, alive: NodeId -> bool, preferences: seq<Preference>)
    requires PrefersAll(t, owners, candidates, alive, preferences)
    ensures Sensible(preferences)
  {
    forall i | 0 <= i < |preferences| && preferences[i].writable
      ensures preferences[i].readable
    {
      assert Prefers(t, owners, candidates, alive, i, preferences[i]);
    }
  }

  /** Reads ask the node a write for the same owner went to. */
  lemma WriteTargetIsSource(preferences: seq<Preference>, i: nat)
    requires Sensible(preferences) && i < |preferences| && WriteTarget(preferences[i]).Some?
    ensures WriteTarget(preferences[i]).value in SourcesOf(preferences[i])
  {
  }

  lemma Overlap(a: set<nat>, b: set<nat>, n: nat) returns (i: nat)
    requires (forall x :: x in a + b ==> x < n) && |a| + |b| > n
    ensures i in a && i in b
  {
    AtMost(a + b, n);
    assert |a + b| == |a| + |b| - |a * b|;
    i :| i in a * b;
  }

  lemma {:induction false} AtMost(s: set<nat>, n: nat)
    requires forall x :: x in s ==> x < n
    ensures |s| <= n
  {
    if n == 0 {
      assert s == {};
    } else {
      AtMost(s - {n - 1}, n - 1);
    }
  }

  /** Owners the write was acknowledged for: whatever happened since, their target reaches it. */
  ghost predicate Acknowledged(preferences: seq<Preference>, stores: NodeId -> Store, o: Layout, w: Key, acked: set<nat>) {
    forall i :: i in acked ==>
      && i < |preferences| && WriteTarget(preferences[i]).Some?
      && Reaches(stores(WriteTarget(preferences[i]).value), o, w)
  }

  // --------------------------------------------------------- exact quorum

  /** Owners a write can be acknowledged for. */
  function Writers(preferences: seq<Preference>): set<nat> {
    set i: nat | i < |preferences| && WriteTarget(preferences[i]).Some?
  }

  /** Owners whose write target answered. */
  function Heard(preferences: seq<Preference>, answered: set<NodeId>): set<nat> {
    set i: nat | i in Writers(preferences) && WriteTarget(preferences[i]).value in answered
  }

  /** A read of a write acknowledged for `acked`: what the nodes hold, what some answered, and what was elected. */
  ghost predicate Reads(o: Layout, rank: Version -> real, preferences: seq<Preference>, w: Key, acked: set<nat>, stores: NodeId -> Store,
                        answers: map<NodeId, Option<Record>>, versions: seq<Version>, winner: Option<Version>) {
    && Acknowledged(preferences, stores, o, w, acked)
    && (forall n :: n in answers ==> Tidy(stores(n), o))
    && Honest(stores, o, PlaceOf(w), answers) && Visible(answers, versions)
    && (if versions == [] then winner.None? else winner.Some? && Wins(rank, versions, winner.value))
  }

  ghost predicate Fresh(o: Layout, w: Key, winner: Option<Version>) {
    winner.Some? && NoOlderThan(o, w, winner.value.key)
  }

  /** Whichever `count` owners acknowledged and whatever the nodes hold, a read that hears `answered` is fresh. */
  ghost predicate AlwaysFresh(o: Layout, rank: Version -> real, preferences: seq<Preference>, w: Key, count: nat, answered: set<NodeId>) {
    forall acked, stores, answers, versions, winner ::
      Reads(o, rank, preferences, w, acked, stores, answers, versions, winner) && |acked| == count && answers.Keys == answered ==>
        Fresh(o, w, winner)
  }

  /** Hearing the write target of one acknowledged owner makes the read fresh. */
  lemma HeardMeansFresh(o: Layout, rank: Version -> real, preferences: seq<Preference>, w: Key, acked: set<nat>, stores: NodeId -> Store,
                        answers: map<NodeId, Option<Record>>, versions: seq<Version>, winner: Option<Version>, i: nat)
    requires Lawful(o) && Ranks(rank, o) && Reads(o, rank, preferences, w, acked, stores, answers, versions, winner)
    requires i in acked && i in Heard(preferences, answers.Keys)
    ensures Fresh(o, w, winner)
  {
    var n := WriteTarget(preferences[i]).value;
    SomethingVisible(o, stores(n), w, n, answers, versions, stores);
    HearingOneSuffices(o, rank, stores, w, n, answers, versions, winner.value);
  }

  lemma {:induction false} PickSome(s: set<nat>, count: nat) returns (t: set<nat>)
    requires count <= |s|
    ensures t <= s && |t| == count
  {
    if count == 0 {
      t := {};
    } else {
      var x :| x in s;
      var u := PickSome(s - {x}, count - 1);
      t := u + {x};
    }
  }

  /** Nodes the write targets of some owners. */
  function Reached(preferences: seq<Preference>, acked: set<nat>): set<NodeId> {
    set i | i in acked && i < |preferences| && WriteTarget(preferences[i]).Some? :: WriteTarget(preferences[i]).value
  }

  /** Stores in which only the nodes reached hold the version. */
  function OnlyAt(reached: set<NodeId>, r: Record): NodeId -> Store {
    (n: NodeId) => if n in reached then map[r.key := r.entry] else map[]
  }

  function Silent(answered: set<NodeId>): map<NodeId, Option<Record>> {
    map n | n in answered :: None
  }

  /** Acknowledged by owners none of whose targets answer, a write may be missed altogether. */
  lemma UnheardMayMiss(o: Layout, rank: Version -> real, preferences: seq<Preference>, r: Record, acked: set<nat>, answered: set<NodeId>)
    requires OwnedTag(r.entry.tag) && acked <= Writers(preferences) && acked !! Heard(preferences, answered)
    ensures Reads(o, rank, preferences, r.key, acked, OnlyAt(Reached(preferences, acked), r), Silent(answered), [], None)
  {
    var reached, stores := Reached(preferences, acked), OnlyAt(Reached(preferences, acked), r);
    forall n | n in reached
      ensures n !in answered
    {
      var i :| i in acked && i < |preferences| && WriteTarget(preferences[i]).Some? && WriteTarget(preferences[i]).value == n;
      assert i !in Heard(preferences, answered);
    }
    assert NoOlderThan(o, r.key, r.key);
    forall n
      ensures n in reached ==> Reaches(stores(n), o, r.key)
      ensures n in answered ==> VersionsAt(stores(n), PlaceOf(r.key)) == {}
    {
    }
  }

  /**
  Reads that hear `answered` are fresh after every write acknowledged for `count` owners exactly
  when `count` and the owners whose write target is heard are more than the owners that can be written.
  */
  lemma QuorumExactly(o: Layout, rank: Version -> real, preferences: seq<Preference>, w: Key, count: nat, answered: set<NodeId>)
    requires Lawful(o) && Ranks(rank, o) && count <= |Writers(preferences)|
    ensures AlwaysFresh(o, rank, preferences, w, count, answered) <==>
            count + |Heard(preferences, answered)| > |Writers(preferences)|
  {
    var writers, heard := Writers(preferences), Heard(preferences, answered);
    if count + |heard| > |writers| {
      forall acked, stores, answers, versions, winner |
        Reads(o, rank, preferences, w, acked, stores, answers, versions, winner) && |acked| == count && answers.Keys == answered
        ensures Fresh(o, w, winner)
      {
        var i := Meet(acked, heard, writers);
        HeardMeansFresh(o, rank, preferences, w, acked, stores, answers, versions, winner, i);
      }
    } else {
      assert |writers - heard| == |writers| - |heard|;
      var acked := PickSome(writers - heard, count);
      var r := Record(w, Entry(Tag(LIVE, []), Value([], 1)));
      UnheardMayMiss(o, rank, preferences, r, acked, answered);
      assert Silent(answered).Keys == answered;
      assert !Fresh(o, w, None);
    }
  }

  lemma Meet(a: set<nat>, b: set<nat>, all: set<nat>) returns (i: nat)
    requires a <= all && b <= all && |a| + |b| > |all|
    ensures i in a && i in b
  {
    SubsetSize(a + b, all);
    assert |a + b| == |a| + |b| - |a * b|;
    i :| i in a * b;
  }

  /** The documented quorum: W acknowledged owners and R fully answered ones, more together than there are. */
  lemma QuorumIntersection(o: Layout, rank: Version -> real, preferences: seq<Preference>, w: Key, acked: set<nat>, stores: NodeId -> Store,
                           answers: map<NodeId, Option<Record>>, versions: seq<Version>, winner: Option<Version>)
    requires Lawful(o) && Ranks(rank, o) && Sensible(preferences)
    requires Reads(o, rank, preferences, w, acked, stores, answers, versions, winner)
    requires |acked| + |Settled(preferences, answers.Keys)| > |preferences|
    ensures Fresh(o, w, winner)
  {
    var i := Overlap(acked, Settled(preferences, answers.Keys), |preferences|);
    WriteTargetIsSource(preferences, i);
    HeardMeansFresh(o, rank, preferences, w, acked, stores, answers, versions, winner, i);
  }

  lemma SomethingVisible(o: Layout, s: Store, w: Key, n: NodeId, answers: map<NodeId, Option<Record>>, versions: seq<Version>,
                         stores: NodeId -> Store)
    requires n in answers && s == stores(n) && Tidy(s, o) && Reaches(s, o, w)
    requires Honest(stores, o, PlaceOf(w), answers) && Visible(answers, versions)
    ensures versions != []
  {
    assert Answers(s, o, PlaceOf(w), answers[n]);
    var j :| j in s && NoOlderThan(o, w, j);
    assert j in VersionsAt(s, PlaceOf(w));
  }

  /**
  One owner under handoff: the write is acknowledged through the handoff, the handoff then fails, the owner
  answers that it holds nothing, and the owner is counted. W + R exceeds the owners and the read finds nothing.
  */
  lemma FailedHandoffHidesWrite(o: Layout, rank: Version -> real, owner: NodeId, handoff: NodeId, r: Record)
    requires owner != handoff && OwnedTag(r.entry.tag)
    ensures var preferences := [Preference(owner, true, Some(handoff), true)];
            && Sensible(preferences)
            && |{0}| + |Counted(preferences, {owner}, {})| > |preferences|
            && Reads(o, rank, preferences, r.key, {0}, OnlyAt({handoff}, r), Silent({owner}), [], None)
            && !Fresh(o, r.key, None)
  {
    var preferences := [Preference(owner, true, Some(handoff), true)];
    assert owner in SourcesOf(preferences[0]) * {owner};
    assert Counted(preferences, {owner}, {}) == {0};
    assert Heard(preferences, {owner}) == {};
    assert 0 in {0};
    assert Reached(preferences, {0}) == {handoff};
    UnheardMayMiss(o, rank, preferences, r, {0}, {owner});
  }
}
