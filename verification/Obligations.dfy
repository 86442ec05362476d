/**
The hot queue: a bounded list of debts to deliver soon.

META is the record of what is owed. A debt the queue has no room for is only kept there,
and a raised flag tells the worker to look.
*/
module Obligations {
  import opened Codec
  import opened Scan

  /** One node must process one address at least through one timestamp. */
  type Obligation = o: RawObligation | ObligationEncodable(o)
    witness RawObligation([0], RawKey(0, Address([], []), Timestamp(0, 0, [])))

  /** The queue after submitting `obs`: each new one while there is room. */
  function Queued(items: seq<Obligation>, capacity: nat, obs: seq<Obligation>): seq<Obligation> {
    if |obs| == 0 then items
    else
      var before, ob := Queued(items, capacity, obs[..|obs| - 1]), obs[|obs| - 1];
      if ob in before || |before| >= capacity then before else before + [ob]
  }

  /** How many found neither a copy of themselves nor room. */
  function Rejected(items: seq<Obligation>, capacity: nat, obs: seq<Obligation>): nat {
    if |obs| == 0 then 0
    else
      var before, ob := Queued(items, capacity, obs[..|obs| - 1]), obs[|obs| - 1];
      Rejected(items, capacity, obs[..|obs| - 1]) + (if ob !in before && |before| >= capacity then 1 else 0)
  }

  predicate Overflows(items: seq<Obligation>, capacity: nat, obs: seq<Obligation>) {
    Rejected(items, capacity, obs) > 0
  }

  /** A submitted obligation is queued unless the queue overflowed; what was queued stays, in order. */
  lemma {:induction false} SubmissionIsTracked(items: seq<Obligation>, capacity: nat, obs: seq<Obligation>)
    requires Distinct(items)
    ensures items <= Queued(items, capacity, obs) && Distinct(Queued(items, capacity, obs))
    ensures |items| <= capacity ==> |Queued(items, capacity, obs)| <= capacity
    ensures !Overflows(items, capacity, obs) ==> forall ob :: ob in obs ==> ob in Queued(items, capacity, obs)
    ensures forall ob :: ob in Queued(items, capacity, obs) ==> ob in items || ob in obs
  {
    if |obs| > 0 {
      var init := obs[..|obs| - 1];
      SubmissionIsTracked(items, capacity, init);
      assert obs == init + [obs[|obs| - 1]];
    }
  }

  lemma OneMore(items: seq<Obligation>, capacity: nat, obs: seq<Obligation>, i: nat)
    requires i < |obs|
    ensures var before, ob := Queued(items, capacity, obs[..i]), obs[i];
            && Queued(items, capacity, obs[..i + 1]) == (if ob in before || |before| >= capacity then before else before + [ob])
            && Rejected(items, capacity, obs[..i + 1])
            == Rejected(items, capacity, obs[..i]) + (if ob !in before && |before| >= capacity then 1 else 0)
  {
    assert obs[..i + 1][..i] == obs[..i];
  }

  /** How many of `obs` are not in `items`. */
  function Missing(obs: seq<Obligation>, items: seq<Obligation>): nat {
    if |obs| == 0 then 0 else Missing(obs[..|obs| - 1], items) + (if obs[|obs| - 1] in items then 0 else 1)
  }

  lemma {:induction false} NoneMissing(obs: seq<Obligation>, items: seq<Obligation>)
    requires forall ob :: ob in obs ==> ob in items
    ensures Missing(obs, items) == 0
  {
    if |obs| > 0 {
      NoneMissing(obs[..|obs| - 1], items);
    }
  }

  /** A queue with room left has turned nothing away. */
  lemma {:induction false} RoomLeft(items: seq<Obligation>, capacity: nat, obs: seq<Obligation>)
    requires |Queued(items, capacity, obs)| < capacity
    ensures Rejected(items, capacity, obs) == 0
  {
    if |obs| > 0 {
      RoomLeft(items, capacity, obs[..|obs| - 1]);
    }
  }

  /** What a submission turns away is what the queue does not hold after it. */
  lemma {:induction false} RejectedAreMissing(items: seq<Obligation>, capacity: nat, obs: seq<Obligation>)
    requires Distinct(items)
    ensures Rejected(items, capacity, obs) == Missing(obs, Queued(items, capacity, obs))
  {
    if |obs| > 0 {
      var init := obs[..|obs| - 1];
      RejectedAreMissing(items, capacity, init);
      if |Queued(items, capacity, init)| < capacity {
        RoomLeft(items, capacity, init);
        SubmissionIsTracked(items, capacity, init);
        NoneMissing(init, Queued(items, capacity, obs));
      }
    }
  }

  class ObligationQueue {
    const capacity: nat
    var items: seq<Obligation>
    var inflight: nat
    var wake: bool
    var idle: bool
    var backlog: bool
    var submitted: nat
    var overflowed: nat

    /** The two event flags say exactly what they are waited on for. */
    predicate Valid()
      reads this
    {
      && capacity >= 1 && |items| <= capacity && Distinct(items)
      && (idle <==> items == [] && inflight == 0)
      && (wake <==> items != [])
    }

    /** Starts with the backlog flag raised, for what a previous run left in META. */
    constructor (capacity: nat)
      requires capacity >= 1
      ensures Valid() && this.capacity == capacity && items == [] && inflight == 0 && backlog
    {
      this.capacity := capacity;
      items, inflight, wake, idle, backlog, submitted, overflowed := [], 0, false, true, true, 0, 0;
    }

    method Submit(obs: seq<Obligation>) returns (accepted: nat)
      requires Valid()
      modifies this`items, this`wake, this`idle, this`backlog, this`submitted, this`overflowed
      ensures Valid()
      ensures items == Queued(old(items), capacity, obs)
      ensures overflowed == old(overflowed) + Missing(obs, items)
      ensures backlog == (old(backlog) || Missing(obs, items) > 0)
      ensures accepted == |items| - |old(items)| && submitted == old(submitted) + accepted
    {
      accepted := 0;
      for i := 0 to |obs|
        modifies this`items, this`backlog, this`overflowed
        invariant items == Queued(old(items), capacity, obs[..i])
        invariant overflowed == old(overflowed) + Rejected(old(items), capacity, obs[..i])
        invariant backlog == (old(backlog) || overflowed > old(overflowed))
        invariant accepted == |items| - |old(items)|
      {
        var ob := obs[i];
        OneMore(old(items), capacity, obs, i);
        if ob in items {
          continue;
        }
        if |items| >= capacity {
          backlog := true;
          overflowed := overflowed + 1;
          continue;
        }
        items := items + [ob];
        accepted := accepted + 1;
      }
      assert obs[..|obs|] == obs;
      RejectedAreMissing(old(items), capacity, obs);
      SubmissionIsTracked(old(items), capacity, obs);
      if accepted > 0 {
        submitted := submitted + accepted;
        idle := false;
        wake := true;
      }
    }

    /** The oldest debts leave the queue and count as in flight until they are settled. */
    method Take(limit: nat) returns (batch: seq<Obligation>)
      requires Valid()
      modifies this`items, this`inflight, this`wake, this`idle
      ensures Valid()
      ensures batch + items == old(items) && |batch| == (if |old(items)| < limit then |old(items)| else limit)
      ensures inflight == old(inflight) + |batch| && idle == old(idle)
    {
      batch := [];
      while items != [] && |batch| < limit
        modifies this`items
        invariant |batch| <= limit && |batch| <= |old(items)|
        invariant batch == old(items)[..|batch|] && items == old(items)[|batch|..]
      {
        batch := batch + [items[0]];
        items := items[1..];
      }
      inflight := inflight + |batch|;
      if items == [] {
        wake := false;
      }
    }

    method Settle(count: nat)
      requires Valid()
      modifies this`inflight, this`idle
      ensures Valid()
      ensures inflight == if old(inflight) < count then 0 else old(inflight) - count
    {
      inflight := if inflight < count then 0 else inflight - count;
      if items == [] && inflight == 0 {
        idle := true;
      }
    }
  }
}
