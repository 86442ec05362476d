/**
The life of replication debts on one node, as a state machine over the atomic steps between
two suspensions of its tasks.

Writers persist a debt with the version it owes, and only then submit it to the queue. One
worker takes batches, delivers them to their targets and removes what was acknowledged; when
the queue is empty and the backlog flag is raised, it reloads META page by page. Meanwhile
every store is written and collected, the replica view changes, and the service may be
stopped and started, or the process killed and restarted.
*/
module Delivery {
  import opened Codec
  import opened Obligations
  import opened Retention
  import opened Scan
  import opened Versions

  /** What does not change: orders, retention, the node itself, its queue and the order of META. */
  datatype Setting = Setting(layout: Layout, versions: nat, self: NodeId, capacity: nat, place: Obligation -> real)

  ghost predicate Fair(c: Setting) {
    Lawful(c.layout) && c.versions >= 1 && c.capacity >= 1 && forall ob :: c.place(ob) >= 0.0
  }

  /** The replicas of every partition, by pid. */
  type Holders = seq<seq<NodeId>>

  /** The debt is towards another node that is a replica of the partition. */
  predicate Owed(c: Setting, view: Holders, ob: Obligation) {
    ob.target != c.self && ob.key.pid < |view| && ob.target in view[ob.key.pid]
  }

  datatype Worker =
    | Resting
      // The view of the batch, debts not dealt with yet, the version captured to cover each, and what was acknowledged.
    | Delivering(view: Holders, left: set<Obligation>, covering: map<Obligation, Record>, acked: set<Obligation>)
      // Reload cursor (none once the last page was read), the page in hand, and debts passed over.
    | Reloading(cursor: Option<real>, hand: set<Obligation>, passed: set<Obligation>)

  datatype Node = Node(
    store: Store,
    meta: set<Obligation>,
    items: seq<Obligation>,
    backlog: bool,
    unsubmitted: set<Obligation>,
    worker: Worker,
    current: Holders,
    // The stores of other nodes; one that is not listed is empty.
    peers: map<NodeId, Store>,
    // History: every debt ever persisted, debts dropped as obsolete, views held.
    incurred: set<Obligation>,
    obsolete: set<Obligation>,
    views: set<Holders>)

  function PeerStore(n: Node, target: NodeId): Store {
    if target in n.peers then n.peers[target] else map[]
  }

  datatype Step =
    | Oblige(record: Record, targets: set<NodeId>)
    | SubmitDebts(obs: seq<Obligation>)
    | Local(op: StoreOp)
    | Remote(target: NodeId, op: StoreOp)
    | ChangeView(view: Holders)
    | TakeBatch(limit: nat)
    | Capture(ob: Obligation, key: Key)
    | Acknowledge(target: NodeId, chunk: set<Obligation>, records: seq<Record>)
    | RemoveDelivered(chunk: set<Obligation>)
    | SetAside(parked: set<Obligation>)
    | DropObsolete(stale: set<Obligation>)
    | FinishBatch
    | Fault
    | BeginReload
    | ReadPage(upto: Option<real>)
    | SubmitPage(ready: seq<Obligation>)
    | Stop
    | Restart

  function DebtsFor(record: Record, targets: set<NodeId>, self: NodeId): set<Obligation> {
    set t | t in targets && t != self && 1 <= |t| <= MAX_NODE_ID_LEN :: RawObligation(t, record.key)
  }

  ghost predicate AheadOf(c: Setting, cursor: Option<real>, ob: Obligation) {
    cursor.Some? && c.place(ob) > cursor.value
  }

  ghost predicate Covers(c: Setting, ob: Obligation, k: Key) {
    NoOlderThan(c.layout, ob.key, k)
  }

  /** The debt is queued, or its writer is about to queue it. */
  predicate Waiting(n: Node, ob: Obligation) {
    ob in n.items || ob in n.unsubmitted
  }

  /** What the worker has before it: the rest of its batch, or of its reload. */
  ghost predicate InWork(c: Setting, n: Node, ob: Obligation) {
    match n.worker
    case Resting => false
    case Delivering(_, left, _, _) => ob in left
    case Reloading(cursor, hand, passed) => ob in hand || AheadOf(c, cursor, ob) || ob in passed
  }

  /** A stop interrupts nothing that would not be found again. */
  ghost predicate SafeToStop(c: Setting, n: Node) {
    n.backlog || forall ob :: ob in n.meta && InWork(c, n, ob) ==> Waiting(n, ob)
  }

  /** Stopping cancels the worker; the queue and the backlog flag live on for the next start. */
  function Stopped(n: Node): Node {
    n.(worker := Resting)
  }

  ghost predicate Next(c: Setting, n: Node, n': Node, step: Step)
    requires Fair(c)
  {
    match step
    case Oblige(r, targets) =>
      var obs := DebtsFor(r, targets, c.self);
      n' == n.(store := Insert(n.store, r), meta := n.meta + obs, unsubmitted := n.unsubmitted + obs,
               incurred := n.incurred + obs)
    case SubmitDebts(obs) =>
      n' == n.(items := Queued(n.items, c.capacity, obs), backlog := n.backlog || Overflows(n.items, c.capacity, obs),
               unsubmitted := n.unsubmitted - (set ob | ob in obs))
    case Local(op) =>
      n' == n.(store := Operate(n.store, c.layout, c.versions, op))
    case Remote(target, op) =>
      n' == n.(peers := n.peers[target := Operate(PeerStore(n, target), c.layout, c.versions, op)])
    case ChangeView(view) =>
      n' == n.(current := view, views := n.views + {view})
    case TakeBatch(limit) =>
      && n.worker.Resting? && n.items != []
      && var size := if |n.items| < limit then |n.items| else limit;
         n' == n.(items := n.items[size..],
                  worker := Delivering(n.current, set ob | ob in n.items[..size], map[], {}))
    case Capture(ob, k) =>
      && n.worker.Delivering? && ob in n.worker.left && Owed(c, n.worker.view, ob)
      && IsLatest(n.store, c.layout, PlaceOf(ob.key), k) && Covers(c, ob, k)
      && n' == n.(worker := n.worker.(covering := n.worker.covering[ob := Record(k, n.store[k])]))
    case Acknowledge(target, chunk, rs) =>
      && n.worker.Delivering? && chunk <= n.worker.left && chunk <= n.worker.covering.Keys
      && (forall ob :: ob in chunk ==> ob.target == target && n.worker.covering[ob] in rs)
      && n' == n.(peers := n.peers[target := Apply(PeerStore(n, target), c.layout, c.versions, rs)],
                  worker := n.worker.(acked := n.worker.acked + chunk))
    case RemoveDelivered(chunk) =>
      && n.worker.Delivering? && chunk <= n.worker.left && chunk <= n.worker.acked
      && n' == n.(meta := n.meta - chunk, worker := n.worker.(left := n.worker.left - chunk))
    case SetAside(obs) =>
      && n.worker.Delivering? && obs <= n.worker.left
      && n' == n.(backlog := true, worker := n.worker.(left := n.worker.left - obs))
    case DropObsolete(obs) =>
      && n.worker.Delivering? && obs <= n.worker.left
      && (forall ob :: ob in obs ==> !Owed(c, n.worker.view, ob))
      && n' == n.(meta := n.meta - obs, obsolete := n.obsolete + obs, worker := n.worker.(left := n.worker.left - obs))
    case FinishBatch =>
      && n.worker.Delivering? && n.worker.left == {}
      && n' == n.(worker := Resting)
    case Fault =>
      n' == n.(backlog := true, worker := Resting)
    case BeginReload =>
      && n.worker.Resting? && n.items == [] && n.backlog
      && n' == n.(backlog := false, worker := Reloading(Some(-1.0), {}, {}))
    case ReadPage(upto) =>
      && n.worker.Reloading? && n.worker.hand == {} && n.worker.cursor.Some?
      && (upto.Some? ==> upto.value >= n.worker.cursor.value)
      && var page := set ob | ob in n.meta && AheadOf(c, n.worker.cursor, ob) && !AheadOf(c, upto, ob);
         n' == n.(worker := Reloading(upto, page, n.worker.passed))
    case SubmitPage(ready) =>
      && n.worker.Reloading? && (forall ob :: ob in ready ==> ob in n.worker.hand)
      && var passed := n.worker.passed + (n.worker.hand - set ob | ob in ready);
         var items := Queued(n.items, c.capacity, ready);
         var backlog := n.backlog || Overflows(n.items, c.capacity, ready);
         n' == if backlog then n.(items := items, backlog := true, worker := Resting)
               else if n.worker.cursor.None? then n.(items := items, backlog := passed != {}, worker := Resting)
               else n.(items := items, backlog := false, worker := Reloading(n.worker.cursor, {}, passed))
    case Stop =>
      SafeToStop(c, n) && n' == Stopped(n)
    case Restart =>
      n' == n.(items := [], backlog := true, unsubmitted := {}, worker := Resting)
  }

  // -------------------------------------------------------------- invariants

  /** Something will still bring the debt to the worker. */
  ghost predicate Tracked(c: Setting, n: Node, ob: Obligation) {
    n.backlog || Waiting(n, ob) || InWork(c, n, ob)
  }

  ghost predicate AllTracked(c: Setting, n: Node) {
    forall ob :: ob in n.meta ==> Tracked(c, n, ob)
  }

  /** A local version covers the debt. */
  ghost predicate Payable(c: Setting, s: Store, ob: Obligation) {
    Reaches(s, c.layout, ob.key)
  }

  ghost predicate AllPayable(c: Setting, n: Node) {
    forall ob :: ob in n.meta ==> Payable(c, n.store, ob)
  }

  /** The target holds the version owed, or something newer. */
  ghost predicate Paid(c: Setting, n: Node, ob: Obligation) {
    Reaches(PeerStore(n, ob.target), c.layout, ob.key)
  }

  /** In some view this node held, the target was this node itself or no replica of the partition. */
  ghost predicate WasObsolete(c: Setting, n: Node, ob: Obligation) {
    exists view :: view in n.views && (ob.target == c.self || ob.key.pid >= |view| || ob.target !in view[ob.key.pid])
  }

  /** Every debt ever incurred is still owed, is paid, or was dropped in a view that did not owe it. */
  ghost predicate NoneForgotten(c: Setting, n: Node) {
    && n.meta <= n.incurred
    && (forall ob :: ob in n.incurred ==> ob in n.meta || Paid(c, n, ob) || ob in n.obsolete)
    && (forall ob :: ob in n.obsolete ==> WasObsolete(c, n, ob))
  }

  /**
  The worker's view is one the node held, its captured versions cover debts towards other nodes that
  are replicas in that view, and what was acknowledged is paid.
  */
  ghost predicate WorkIsReal(c: Setting, n: Node) {
    && n.current in n.views
    && (n.worker.Delivering? ==>
          && n.worker.view in n.views
          && (forall ob :: ob in n.worker.covering ==>
                && Covers(c, ob, n.worker.covering[ob].key)
                && ob.target != c.self && ob.key.pid < |n.worker.view| && ob.target in n.worker.view[ob.key.pid])
          && (forall ob :: ob in n.worker.acked ==> Paid(c, n, ob)))
  }

  ghost predicate Bounded(c: Setting, n: Node) {
    Distinct(n.items) && |n.items| <= c.capacity
  }

  ghost predicate Inv(c: Setting, n: Node) {
    Bounded(c, n) && AllTracked(c, n) && AllPayable(c, n) && NoneForgotten(c, n) && WorkIsReal(c, n)
  }

  // ------------------------------------------------------------ preservation

  lemma TrackedSubmit(c: Setting, n: Node, n': Node, obs: seq<Obligation>)
    requires Fair(c) && Bounded(c, n) && AllTracked(c, n) && Next(c, n, n', SubmitDebts(obs))
    ensures Bounded(c, n') && AllTracked(c, n')
  {
    SubmissionIsTracked(n.items, c.capacity, obs);
    forall ob | ob in n'.meta
      ensures Tracked(c, n', ob)
    {
      assert Tracked(c, n, ob);
    }
  }

  lemma TrackedTake(c: Setting, n: Node, n': Node, limit: nat)
    requires Fair(c) && Bounded(c, n) && AllTracked(c, n) && Next(c, n, n', TakeBatch(limit))
    ensures Bounded(c, n') && AllTracked(c, n')
  {
    var size := if |n.items| < limit then |n.items| else limit;
    forall ob | ob in n'.meta
      ensures Tracked(c, n', ob)
    {
      assert Tracked(c, n, ob);
      if ob in n.items {
        var i :| 0 <= i < |n.items| && n.items[i] == ob;
        assert i < size ==> n.items[..size][i] == ob;
        assert i >= size ==> n.items[size..][i - size] == ob;
      }
    }
  }

  lemma TrackedPage(c: Setting, n: Node, n': Node, ready: seq<Obligation>)
    requires Fair(c) && Bounded(c, n) && AllTracked(c, n) && Next(c, n, n', SubmitPage(ready))
    ensures Bounded(c, n') && AllTracked(c, n')
  {
    SubmissionIsTracked(n.items, c.capacity, ready);
    var passed := n.worker.passed + (n.worker.hand - set ob | ob in ready);
    forall ob | ob in n'.meta
      ensures Tracked(c, n', ob)
    {
      assert Tracked(c, n, ob);
      assert ob in n.worker.hand ==> ob in ready || ob in passed;
      assert ob in passed ==> passed != {};
    }
  }

  lemma TrackedQuietly(c: Setting, n: Node, n': Node, step: Step)
    requires Fair(c) && Bounded(c, n) && AllTracked(c, n) && Next(c, n, n', step)
    requires !step.SubmitDebts? && !step.TakeBatch? && !step.SubmitPage?
    ensures Bounded(c, n') && AllTracked(c, n')
  {
    forall ob | ob in n'.meta
      ensures Tracked(c, n', ob)
    {
      if ob in n.meta {
        assert Tracked(c, n, ob);
      }
    }
  }

  lemma TrackedStep(c: Setting, n: Node, n': Node, step: Step)
    requires Fair(c) && Bounded(c, n) && AllTracked(c, n) && Next(c, n, n', step)
    ensures Bounded(c, n') && AllTracked(c, n')
  {
    match step
    case SubmitDebts(obs) => TrackedSubmit(c, n, n', obs);
    case TakeBatch(limit) => TrackedTake(c, n, n', limit);
    case SubmitPage(ready) => TrackedPage(c, n, n', ready);
    case _ => TrackedQuietly(c, n, n', step);
  }

  lemma PayableStep(c: Setting, n: Node, n': Node, step: Step)
    requires Fair(c) && AllPayable(c, n) && Next(c, n, n', step)
    ensures AllPayable(c, n')
  {
    forall ob | ob in n'.meta
      ensures Payable(c, n'.store, ob)
    {
      if step.Oblige? {
        var r := step.record;
        if ob in n.meta {
          OperateReaches(n.store, c.layout, c.versions, Put(r), ob.key);
        } else {
          assert r.key in n'.store && NoOlderThan(c.layout, ob.key, r.key);
        }
      } else if step.Local? {
        OperateReaches(n.store, c.layout, c.versions, step.op, ob.key);
      }
    }
  }

  /** What a target holds it keeps, or something newer. */
  lemma PaidStays(c: Setting, n: Node, n': Node, step: Step, ob: Obligation)
    requires Fair(c) && Paid(c, n, ob) && Next(c, n, n', step)
    ensures Paid(c, n', ob)
  {
    if step.Remote? && step.target == ob.target {
      OperateReaches(PeerStore(n, ob.target), c.layout, c.versions, step.op, ob.key);
    } else if step.Acknowledge? && step.target == ob.target {
      OperateReaches(PeerStore(n, ob.target), c.layout, c.versions, Absorb(step.records), ob.key);
    }
  }

  lemma AcknowledgedIsPaid(c: Setting, n: Node, n': Node, step: Step, ob: Obligation)
    requires Fair(c) && WorkIsReal(c, n) && step.Acknowledge? && Next(c, n, n', step) && ob in step.chunk
    ensures Paid(c, n', ob)
  {
    var r := n.worker.covering[ob];
    ApplyReaches(PeerStore(n, ob.target), c.layout, c.versions, step.records, r, ob.key);
  }

  lemma ViewsGrow(c: Setting, n: Node, n': Node, step: Step)
    requires Fair(c) && Next(c, n, n', step)
    ensures n.views <= n'.views
  {
  }

  lemma ForgottenStep(c: Setting, n: Node, n': Node, step: Step)
    requires Fair(c) && NoneForgotten(c, n) && WorkIsReal(c, n) && Next(c, n, n', step)
    ensures NoneForgotten(c, n')
  {
    ViewsGrow(c, n, n', step);
    forall ob | ob in n'.incurred
      ensures ob in n'.meta || Paid(c, n', ob) || ob in n'.obsolete
    {
      if Paid(c, n, ob) {
        PaidStays(c, n, n', step, ob);
      }
    }
    forall ob | ob in n'.obsolete
      ensures WasObsolete(c, n', ob)
    {
      if ob in n.obsolete {
        var view :| view in n.views && (ob.target == c.self || ob.key.pid >= |view| || ob.target !in view[ob.key.pid]);
        assert view in n'.views;
      } else {
        assert n.worker.view in n'.views;
      }
    }
  }

  lemma WorkStep(c: Setting, n: Node, n': Node, step: Step)
    requires Fair(c) && WorkIsReal(c, n) && Next(c, n, n', step)
    ensures WorkIsReal(c, n')
  {
    ViewsGrow(c, n, n', step);
    if n'.worker.Delivering? {
      forall ob | ob in n'.worker.acked
        ensures Paid(c, n', ob)
      {
        if ob in n.worker.acked {
          PaidStays(c, n, n', step, ob);
        } else {
          AcknowledgedIsPaid(c, n, n', step, ob);
        }
      }
    }
  }

  lemma InvStep(c: Setting, n: Node, n': Node, step: Step)
    requires Fair(c) && Inv(c, n) && Next(c, n, n', step)
    ensures Inv(c, n')
  {
    TrackedStep(c, n, n', step);
    PayableStep(c, n, n', step);
    ForgottenStep(c, n, n', step);
    WorkStep(c, n, n', step);
  }

  // ------------------------------------------------------------------- runs

  ghost predicate Initial(n: Node) {
    && n.meta == {} && n.items == [] && n.backlog && n.unsubmitted == {} && n.worker == Resting
    && n.incurred == {} && n.obsolete == {} && n.views == {n.current}
  }

  ghost predicate IsRun(c: Setting, run: seq<Node>, steps: seq<Step>)
    requires Fair(c)
  {
    && |run| == |steps| + 1 && Initial(run[0])
    && forall i :: 0 <= i < |steps| ==> Next(c, run[i], run[i + 1], steps[i])
  }

  /** In every state of every run no debt is lost from sight, every debt can be paid, and none is forgotten. */
  lemma {:induction false} EveryRunKeepsDebts(c: Setting, run: seq<Node>, steps: seq<Step>, i: nat)
    requires Fair(c) && IsRun(c, run, steps) && i < |run|
    ensures Inv(c, run[i])
  {
    if i > 0 {
      EveryRunKeepsDebts(c, run, steps, i - 1);
      InvStep(c, run[i - 1], run[i], steps[i - 1]);
    }
  }

  // ------------------------------------------------------------ consequences

  /** A worker at rest with an empty queue, no backlog and no writer about to submit owes nothing. */
  lemma QuietMeansSettled(c: Setting, n: Node, ob: Obligation)
    requires Inv(c, n) && n.worker.Resting? && n.items == [] && !n.backlog && n.unsubmitted == {}
    requires ob in n.incurred
    ensures n.meta == {} && (Paid(c, n, ob) || WasObsolete(c, n, ob))
  {
    assert forall x :: x in n.meta ==> Tracked(c, n, x);
    assert n.meta == {};
  }

  /** When byte order and timestamp order agree, the version a delivery looks up always covers the debt. */
  lemma LatestCovers(c: Setting, n: Node, ob: Obligation, k: Key)
    requires Fair(c) && Inv(c, n) && ob in n.meta && IsLatest(n.store, c.layout, PlaceOf(ob.key), k)
    requires OrdersAgree(c.layout, n.store.Keys)
    ensures Covers(c, ob, k)
  {
    assert Payable(c, n.store, ob);
    LatestReaches(n.store, c.layout, ob.key, k);
  }

  ghost function Start(store: Store, view: Holders): Node {
    Node(store, {}, [], true, {}, Resting, view, map[], {}, {}, {view})
  }

  function Debt(target: NodeId, k: Key): Obligation
    requires 1 <= |target| <= MAX_NODE_ID_LEN
  {
    RawObligation(target, k)
  }

  /** After one `Oblige`, a node holds the version and owes it. */
  ghost function Owing(store: Store, view: Holders, r: Record, target: NodeId): Node
    requires 1 <= |target| <= MAX_NODE_ID_LEN
  {
    var obs := {Debt(target, r.key)};
    Start(store, view).(store := Insert(store, r), meta := obs, unsubmitted := obs, incurred := obs)
  }

  lemma ObligeOwes(c: Setting, store: Store, view: Holders, r: Record, target: NodeId)
    requires Fair(c) && target != c.self && 1 <= |target| <= MAX_NODE_ID_LEN
    ensures Next(c, Start(store, view), Owing(store, view, r, target), Oblige(r, {target}))
  {
    assert DebtsFor(r, {target}, c.self) == {Debt(target, r.key)} by {
      assert target in {target};
    }
  }

  /**
  If two versions of an address sort one way in time and the other way in bytes, some run leaves
  a debt whose looked-up version does not cover it, although another stored version does.
  */
  lemma InvertedOrdersBlockDelivery(c: Setting, view: Holders, a: Key, r: Record, target: NodeId, e: Entry)
    requires Fair(c) && target != c.self && 1 <= |target| <= MAX_NODE_ID_LEN
    requires PlaceOf(a) == PlaceOf(r.key)
    requires c.layout.logs(r.key) < c.layout.logs(a) && c.layout.hlc(a) < c.layout.hlc(r.key)
    ensures var n, ob := Owing(map[a := e], view, r, target), Debt(target, r.key);
            && IsRun(c, [Start(map[a := e], view), n], [Oblige(r, {target})])
            && ob in n.meta && Payable(c, n.store, ob)
            && IsLatest(n.store, c.layout, PlaceOf(ob.key), a) && !Covers(c, ob, a)
  {
    var n := Owing(map[a := e], view, r, target);
    ObligeOwes(c, map[a := e], view, r, target);
    assert r.key in n.store && Covers(c, Debt(target, r.key), r.key);
  }

  // -------------------------------------------------------------- progress

  ghost predicate IsPath(c: Setting, run: seq<Node>, steps: seq<Step>, n: Node, n': Node)
    requires Fair(c)
  {
    && |run| == |steps| + 1 && run[0] == n && run[|steps|] == n'
    && forall i :: 0 <= i < |steps| ==> Next(c, run[i], run[i + 1], steps[i])
  }

  /** Some steps lead from one state to the other. */
  ghost predicate Leads(c: Setting, n: Node, n': Node)
    requires Fair(c)
  {
    exists run, steps :: IsPath(c, run, steps, n, n')
  }

  lemma LeadsBy(c: Setting, n: Node, n': Node, step: Step)
    requires Fair(c) && Next(c, n, n', step)
    ensures Leads(c, n, n')
  {
    assert IsPath(c, [n, n'], [step], n, n');
  }

  lemma LeadsOn(c: Setting, n: Node, n': Node, n'': Node)
    requires Fair(c) && Leads(c, n, n') && Leads(c, n', n'')
    ensures Leads(c, n, n'')
  {
    var run, steps :| IsPath(c, run, steps, n, n');
    var more, further :| IsPath(c, more, further, n', n'');
    var all, whole := run + more[1..], steps + further;
    forall i | 0 <= i < |whole|
      ensures Next(c, all[i], all[i + 1], whole[i])
    {
      if i >= |steps| {
        assert Next(c, more[i - |steps|], more[i - |steps| + 1], further[i - |steps|]);
      } else {
        assert Next(c, run[i], run[i + 1], steps[i]);
      }
    }
    assert IsPath(c, all, whole, n, n'');
  }

  /** Whatever it is doing, the worker can come to rest with an empty queue and the backlog flag up. */
  lemma CanRest(c: Setting, n: Node) returns (n': Node)
    requires Fair(c)
    ensures n' == n.(items := [], backlog := true, worker := Resting) && Leads(c, n, n')
  {
    var idle := n.(backlog := true, worker := Resting);
    n' := idle.(items := []);
    LeadsBy(c, n, idle, Fault);
    if n.items != [] {
      var batch: set<Obligation> := set ob | ob in n.items[..|n.items|];
      var taken := n'.(worker := Delivering(n.current, batch, map[], {}));
      var parked := n'.(worker := Delivering(n.current, {}, map[], {}));
      LeadsBy(c, idle, taken, TakeBatch(|n.items|));
      assert batch - batch == {};
      LeadsBy(c, taken, parked, SetAside(batch));
      LeadsBy(c, parked, n', FinishBatch);
      LeadsOn(c, n, idle, taken);
      LeadsOn(c, n, taken, parked);
      LeadsOn(c, n, parked, n');
    } else {
      assert idle == n';
    }
  }

  lemma QueueOne(capacity: nat, ob: Obligation)
    requires capacity >= 1
    ensures Queued([], capacity, [ob]) == [ob] && !Overflows([], capacity, [ob])
  {
    assert [ob][..0] == [];
    assert Rejected([], capacity, [ob]) == 0;
  }

  /** From there it can reload META and queue any one debt of it. */
  lemma CanQueue(c: Setting, n: Node, ob: Obligation) returns (n': Node)
    requires Fair(c) && n.worker.Resting? && n.items == [] && n.backlog && ob in n.meta
    ensures n' == n.(backlog := n'.backlog, items := [ob]) && Leads(c, n, n')
  {
    var begun := n.(backlog := false, worker := Reloading(Some(-1.0), {}, {}));
    var read := begun.(worker := Reloading(None, n.meta, {}));
    n' := n.(items := [ob], backlog := n.meta - {ob} != {});
    LeadsBy(c, n, begun, BeginReload);
    var page := set x | x in n.meta && AheadOf(c, Some(-1.0), x) && !AheadOf(c, None, x);
    assert page == n.meta;
    LeadsBy(c, begun, read, ReadPage(None));
    QueueOne(c.capacity, ob);
    assert (set x | x in [ob]) == {ob} && {} + (n.meta - {ob}) == n.meta - {ob};
    LeadsBy(c, read, n', SubmitPage([ob]));
    LeadsOn(c, n, begun, read);
    LeadsOn(c, n, read, n');
  }

  /** And then take it in hand, under the current view. */
  lemma CanTake(c: Setting, n: Node, ob: Obligation) returns (n': Node)
    requires Fair(c) && n.worker.Resting? && n.items == [ob]
    ensures n' == n.(items := [], worker := Delivering(n.current, {ob}, map[], {})) && Leads(c, n, n')
  {
    n' := n.(items := [], worker := Delivering(n.current, {ob}, map[], {}));
    assert [ob][..1] == [ob];
    assert (set x | x in [ob]) == {ob};
    LeadsBy(c, n, n', TakeBatch(1));
  }

  /** The debt is towards another node that is a replica of the partition, written out. */
  predicate Wanted(c: Setting, view: Holders, ob: Obligation) {
    ob.target != c.self && ob.key.pid < |view| && exists i :: 0 <= i < |view[ob.key.pid]| && view[ob.key.pid][i] == ob.target
  }

  lemma CanPay(c: Setting, n: Node, ob: Obligation, k: Key) returns (n': Node)
    requires Fair(c) && n.worker.Delivering? && n.worker.covering == map[] && n.worker.left == {ob}
    requires IsLatest(n.store, c.layout, PlaceOf(ob.key), k) && Covers(c, ob, k) && Wanted(c, n.worker.view, ob)
    ensures Leads(c, n, n') && n'.meta == n.meta - {ob} && Paid(c, n', ob) && n'.obsolete == n.obsolete
  {
    var r := Record(k, n.store[k]);
    var captured := n.(worker := n.worker.(covering := map[ob := r]));
    var sent := captured.(peers := n.peers[ob.target := Apply(PeerStore(n, ob.target), c.layout, c.versions, [r])],
                          worker := captured.worker.(acked := n.worker.acked + {ob}));
    n' := sent.(meta := n.meta - {ob}, worker := sent.worker.(left := {}));
    LeadsBy(c, n, captured, Capture(ob, k));
    LeadsBy(c, captured, sent, Acknowledge(ob.target, {ob}, [r]));
    assert {ob} - {ob} == {};
    LeadsBy(c, sent, n', RemoveDelivered({ob}));
    LeadsOn(c, n, captured, sent);
    LeadsOn(c, n, sent, n');
    ApplyReaches(PeerStore(n, ob.target), c.layout, c.versions, [r], r, ob.key);
  }

  lemma CanDrop(c: Setting, n: Node, ob: Obligation) returns (n': Node)
    requires Fair(c) && n.worker.Delivering? && n.worker.left == {ob} && !Wanted(c, n.worker.view, ob)
    ensures Leads(c, n, n') && n'.meta == n.meta - {ob} && n'.peers == n.peers && n'.obsolete == n.obsolete + {ob}
  {
    n' := n.(meta := n.meta - {ob}, obsolete := n.obsolete + {ob}, worker := n.worker.(left := {}));
    assert {ob} - {ob} == {};
    LeadsBy(c, n, n', DropObsolete({ob}));
  }

  /**
  No debt is ever stuck. From every sound state some run of the worker settles it: pays it if its
  target is a replica in the current view, and drops it if not, where byte order and time agree.
  */
  lemma DebtCanBeSettled(c: Setting, n: Node, ob: Obligation, k: Key) returns (n': Node)
    requires Fair(c) && Inv(c, n) && ob in n.meta
    requires IsLatest(n.store, c.layout, PlaceOf(ob.key), k) && OrdersAgree(c.layout, n.store.Keys)
    ensures Leads(c, n, n') && n'.meta == n.meta - {ob}
    ensures if Wanted(c, n.current, ob) then Paid(c, n', ob) && n'.obsolete == n.obsolete
            else n'.obsolete == n.obsolete + {ob} && n'.peers == n.peers
  {
    LatestCovers(c, n, ob, k);
    var rested := CanRest(c, n);
    var queued := CanQueue(c, rested, ob);
    LeadsOn(c, n, rested, queued);
    var taken := CanTake(c, queued, ob);
    LeadsOn(c, n, queued, taken);
    if Wanted(c, n.current, ob) {
      n' := CanPay(c, taken, ob, k);
    } else {
      n' := CanDrop(c, taken, ob);
    }
    LeadsOn(c, n, taken, n');
  }

  // -------------------------------------------------- stopping the service

  /** Stopping keeps every debt in sight exactly when what it interrupts is queued anyway, or the backlog flag is up. */
  lemma StopKeepsTrackIff(c: Setting, n: Node)
    requires Inv(c, n)
    ensures AllTracked(c, Stopped(n)) <==> SafeToStop(c, n)
    ensures AllTracked(c, Stopped(n)) <==>
      match n.worker
      case Resting => true
      case Delivering(_, left, _, _) => n.backlog || forall ob :: ob in left * n.meta ==> Waiting(n, ob)
      case Reloading(cursor, hand, passed) =>
        n.backlog || forall ob :: ob in n.meta && (ob in hand + passed || AheadOf(c, cursor, ob)) ==> Waiting(n, ob)
  {
    var stopped := Stopped(n);
    if SafeToStop(c, n) {
      forall ob | ob in stopped.meta
        ensures Tracked(c, stopped, ob)
      {
        assert Tracked(c, n, ob);
      }
    } else {
      var ob :| ob in n.meta && InWork(c, n, ob) && !Waiting(n, ob);
      assert !Tracked(c, stopped, ob);
    }
  }

  /** A node that reloads what an earlier process left in META. */
  ghost function Rereading(store: Store, view: Holders, r: Record, target: NodeId): Node
    requires 1 <= |target| <= MAX_NODE_ID_LEN
  {
    Owing(store, view, r, target).(unsubmitted := {}, backlog := false, worker := Reloading(Some(-1.0), {}, {}))
  }

  /** Debts being reloaded when the service stops are lost from sight. */
  lemma StopDuringReloadForgets(c: Setting, store: Store, view: Holders, r: Record, target: NodeId)
    requires Fair(c) && target != c.self && 1 <= |target| <= MAX_NODE_ID_LEN
    ensures var owing, reloading := Owing(store, view, r, target), Rereading(store, view, r, target);
            var restarted := owing.(unsubmitted := {});
            && IsRun(c, [Start(store, view), owing, restarted, reloading], [Oblige(r, {target}), Restart, BeginReload])
            && Debt(target, r.key) in reloading.meta && !SafeToStop(c, reloading)
            && !Tracked(c, Stopped(reloading), Debt(target, r.key))
  {
    ObligeOwes(c, store, view, r, target);
    var owing, reloading := Owing(store, view, r, target), Rereading(store, view, r, target);
    var restarted := owing.(unsubmitted := {});
    assert Next(c, owing, restarted, Restart);
    assert Next(c, restarted, reloading, BeginReload);
    assert InWork(c, reloading, Debt(target, r.key));
  }
}
