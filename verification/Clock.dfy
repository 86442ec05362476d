/**
The hybrid logical clock that stamps writes: it never repeats or goes back, whatever the
wall clock does, but a stamp fits its encoding only while the counter does.
*/
module Clock {
  import opened Codec
  import opened Scan

  /** Last stamp issued or observed, without the node. */
  datatype Reading = Reading(wall: int, counter: int)

  predicate Before(a: Reading, b: Reading) {
    a.wall < b.wall || (a.wall == b.wall && a.counter < b.counter)
  }

  predicate NoLater(a: Reading, b: Reading) {
    a == b || Before(a, b)
  }

  /** `now` is what the wall clock says, which may be anything. */
  datatype Event = Tick(now: int) | Update(now: int, remote: Timestamp) | Restore(reading: Reading)

  function Advanced(c: Reading, e: Event): Reading {
    match e
    case Tick(now) => if now > c.wall then Reading(now, 0) else c.(counter := c.counter + 1)
    case Update(now, remote) =>
      var wall := Max(now, Max(remote.wall, c.wall));
      Reading(wall,
              if wall == c.wall && wall == remote.wall then Max(c.counter, remote.counter) + 1
              else if wall == c.wall then c.counter + 1
              else if wall == remote.wall then remote.counter + 1
              else 0)
    case Restore(r) => if NoLater(c, r) then r else c
  }

  function Run(c: Reading, events: seq<Event>): Reading {
    if |events| == 0 then c else Advanced(Run(c, events[..|events| - 1]), events[|events| - 1])
  }

  lemma {:induction false} NeverGoesBack(c: Reading, events: seq<Event>, i: nat)
    requires i <= |events|
    ensures NoLater(Run(c, events[..i]), Run(c, events))
  {
    if i < |events| {
      var init := events[..|events| - 1];
      assert init[..i] == events[..i];
      NeverGoesBack(c, init, i);
    } else {
      assert events[..i] == events;
    }
  }

  /** The stamp the `i`-th event returns. */
  function Stamp(c: Reading, events: seq<Event>, i: nat, node: NodeId): Timestamp
    requires i < |events|
  {
    var r := Run(c, events[..i + 1]);
    Timestamp(r.wall, r.counter, node)
  }

  /** Over any run, every stamp is greater than all stamps before it. */
  lemma StampsIncrease(c: Reading, events: seq<Event>, i: nat, j: nat, node: NodeId)
    requires i < j < |events| && !events[j].Restore?
    ensures HlcLess(Stamp(c, events, i, node), Stamp(c, events, j, node))
  {
    var upTo := events[..j];
    assert upTo[..i + 1] == events[..i + 1];
    NeverGoesBack(c, upTo, i + 1);
    assert events[..j + 1][..j] == upTo;
  }

  /** A stamp given for an observed timestamp is greater than it. */
  lemma UpdateFollowsRemote(c: Reading, now: int, remote: Timestamp, node: NodeId)
    ensures var r := Advanced(c, Update(now, remote)); HlcLess(remote, Timestamp(r.wall, r.counter, node))
  {
  }

  /** A restarted clock given a reading issues only greater stamps from then on. */
  lemma RestoreResumes(c: Reading, past: Reading, events: seq<Event>, i: nat, node: NodeId)
    requires i < |events| && !events[i].Restore?
    ensures HlcLess(Timestamp(past.wall, past.counter, node), Stamp(Advanced(c, Restore(past)), events, i, node))
  {
    var start := Advanced(c, Restore(past));
    NeverGoesBack(start, events[..i], 0);
    assert events[..i][..0] == [] && events[..i + 1][..i] == events[..i];
  }

  /** What a reading has to satisfy after an event: later than all it has seen, and no earlier than the wall clock. */
  predicate Allowed(c: Reading, e: Event, x: Reading) {
    match e
    case Tick(now) => Before(c, x) && x.wall >= now && x.counter >= 0
    case Update(now, remote) =>
      Before(c, x) && Before(Reading(remote.wall, remote.counter), x) && x.wall >= now && x.counter >= 0
    case Restore(r) => NoLater(c, x) && NoLater(r, x)
  }

  /** The clock moves no further than it has to: it takes the least such reading. */
  lemma AdvancesLeast(c: Reading, e: Event, x: Reading)
    requires c.counter >= 0 && (e.Update? ==> e.remote.counter >= 0)
    ensures Allowed(c, e, Advanced(c, e))
    ensures Allowed(c, e, x) ==> NoLater(Advanced(c, e), x)
  {
  }

  /** What an event says the time is. */
  function WallOf(e: Event): int {
    match e
    case Tick(now) => now
    case Update(now, remote) => Max(now, remote.wall)
    case Restore(r) => r.wall
  }

  /** The clock never runs ahead of the latest time anybody told it. */
  lemma {:induction false} NeverRunsAhead(c: Reading, events: seq<Event>, bound: int)
    requires c.wall <= bound && forall i :: 0 <= i < |events| ==> WallOf(events[i]) <= bound
    ensures Run(c, events).wall <= bound
    ensures forall i :: 0 <= i < |events| ==> WallOf(events[i]) <= Run(c, events).wall
  {
    if |events| > 0 {
      NeverRunsAhead(c, events[..|events| - 1], bound);
    }
  }

  class HlcClock {
    const node: NodeId
    var wall: int
    var counter: int

    ghost function Now(): Reading
      reads this
    {
      Reading(wall, counter)
    }

    constructor (node: NodeId)
      ensures this.node == node && Now() == Reading(0, 0)
    {
      this.node, wall, counter := node, 0, 0;
    }

    method Tick(now: int) returns (ts: Timestamp)
      modifies this`wall, this`counter
      ensures Now() == Advanced(old(Now()), Event.Tick(now)) && ts == Timestamp(wall, counter, node)
      ensures Before(old(Now()), Now())
    {
      if now > wall {
        wall, counter := now, 0;
      } else {
        counter := counter + 1;
      }
      ts := Timestamp(wall, counter, node);
    }

    method Update(now: int, remote: Timestamp) returns (ts: Timestamp)
      modifies this`wall, this`counter
      ensures Now() == Advanced(old(Now()), Event.Update(now, remote)) && ts == Timestamp(wall, counter, node)
      ensures Before(old(Now()), Now()) && HlcLess(remote, ts)
    {
      var max := Max(now, Max(remote.wall, wall));
      if max == wall && max == remote.wall {
        counter := Max(counter, remote.counter) + 1;
      } else if max == wall {
        counter := counter + 1;
      } else if max == remote.wall {
        counter := remote.counter + 1;
      } else {
        counter := 0;
      }
      wall := max;
      ts := Timestamp(wall, counter, node);
    }

    method Restore(reading: Reading)
      modifies this`wall, this`counter
      ensures Now() == Advanced(old(Now()), Event.Restore(reading)) && NoLater(reading, Now()) && NoLater(old(Now()), Now())
    {
      if reading.wall > wall {
        wall, counter := reading.wall, reading.counter;
      } else if reading.wall == wall {
        counter := Max(counter, reading.counter);
      }
    }
  }

  // ------------------------------------------------------------- encoding

  /** The stamp at this reading can be written down. */
  predicate Fits(c: Reading, node: NodeId) {
    TimestampFits(Timestamp(c.wall, c.counter, node))
  }

  /** A tick can be written down exactly when time moved on, or the two counter bytes have room. */
  lemma TickFitsExactly(c: Reading, now: int, node: NodeId)
    requires Fits(c, node) && now < 0x1_0000_0000_0000_0000
    ensures Fits(Advanced(c, Tick(now)), node) <==> now > c.wall || c.counter < 0xFFFF
  {
  }

  /** The counter an update carries on from, when the wall clock is not ahead of both sides. */
  function CarriedCounter(c: Reading, remote: Timestamp): int {
    if c.wall > remote.wall then c.counter
    else if c.wall < remote.wall then remote.counter
    else Max(c.counter, remote.counter)
  }

  /** An update can be written down exactly when time moved past both sides, or the counter carried on has room. */
  lemma UpdateFitsExactly(c: Reading, now: int, remote: Timestamp, node: NodeId)
    requires Fits(c, node) && TimestampFits(remote) && now < 0x1_0000_0000_0000_0000
    ensures Fits(Advanced(c, Update(now, remote)), node) <==>
            (now > c.wall && now > remote.wall) || CarriedCounter(c, remote) < 0xFFFF
  {
  }

  /** A peer whose counter is full, ahead of our wall clock, leaves no stamp that fits. */
  lemma FullRemoteOverflows(c: Reading, now: int, remote: Timestamp, node: NodeId)
    requires Fits(c, node) && TimestampFits(remote) && remote.counter == 0xFFFF && c.wall < now <= remote.wall
    ensures !Fits(Advanced(c, Update(now, remote)), node)
  {
    UpdateFitsExactly(c, now, remote, node);
  }

  /** With the wall clock standing still, that many ticks use the counter up. */
  lemma {:induction false} StalledClockOverflows(c: Reading, events: seq<Event>, node: NodeId)
    requires Fits(c, node) && forall i :: 0 <= i < |events| ==> events[i].Tick? && events[i].now <= c.wall
    ensures Run(c, events) == c.(counter := c.counter + |events|)
    ensures Fits(Run(c, events), node) <==> c.counter + |events| < 0x1_0000
  {
    if |events| > 0 {
      StalledClockOverflows(c, events[..|events| - 1], node);
    }
  }
}
