/**
 * lkT_dispatchL: a worker takes a service's whole queue, hands each signal to
 * the source's refactor hook and then to the slot's handler, recycles the
 * nodes, and decides whether the service sleeps, runs again or is deleted.
 *
 * The source runs the three phases under different locks; here they are
 * DispatchBegin, one Deliver per node and DispatchEnd.
 */
module LkDispatch {
  import opened LkCodes
  import opened LkRuntime
  import opened LkService
  import LkQueue

  /** Which hooks saw a signal. */
  datatype Delivery = Delivery(refactored: bool, handled: bool)

  /**
   * The source's refactor hook sees every signal except those for the logger;
   * the slot's handler sees it unless the hook returned a code other than LK_ERR
   * (a hook that raised counts as LK_ERR).
   */
  function Route(refactorSet: bool, toLogger: bool, slotHasHandler: bool, outcome: Outcome): (d: Delivery)
    ensures d.refactored <==> refactorSet && !toLogger
    ensures d.handled <==> slotHasHandler && (!d.refactored || outcome.Raised? || outcome.code == ERR)
    ensures toLogger ==> d.handled == slotHasHandler
  {
    var refactored := refactorSet && !toLogger;
    var ret := if refactored && outcome.Returned? then outcome.code else ERR;
    Delivery(refactored, ret == ERR && slotHasHandler)
  }

  /** The route of one queued node, given what the refactor hook reported. */
  function RouteOf(node: Node, logger: Slot?, outcome: Outcome): Delivery
    requires node.sig.src != null
  {
    Route(node.sig.src.hasRefactor, node.slot == logger, node.slot.hasHandler, outcome)
  }

  /** The routes of a whole batch, in queue order. */
  function RoutesOf(batch: seq<Node>, logger: Slot?, outcomes: seq<Outcome>): (r: seq<Delivery>)
    requires |outcomes| == |batch| && forall k | 0 <= k < |batch| :: batch[k].sig.src != null
    ensures |r| == |batch| && forall k | 0 <= k < |batch| :: r[k] == RouteOf(batch[k], logger, outcomes[k])
  {
    seq(|batch|, k requires 0 <= k < |batch| => RouteOf(batch[k], logger, outcomes[k]))
  }

  /** The first phase: the whole queue is taken and the service's queue is left empty. */
  method DispatchBegin(svr: Service) returns (batch: seq<Node>)
    modifies svr`signals
    ensures batch == old(svr.signals) && svr.signals == []
  {
    batch := svr.signals;
    svr.signals := [];
  }

  /**
   * One node of the second phase, as written: the hooks see the signal; then,
   * only when the source is STOPPING, its pending count is decremented, and
   * when that reaches zero the service being dispatched (not the source) is
   * queued unless it already is.
   */
  method Deliver(rt: Runtime, svr: Service, node: Node, outcome: Outcome) returns (d: Delivery)
    requires node.sig.src != null && node.sig.src.pending < U32
    requires svr in rt.active ==> svr.inqueue
    modifies node.sig.src`pending, rt`active, svr`inqueue
    ensures d == RouteOf(node, rt.logger, outcome)
    ensures node.sig.src.pending ==
              if node.sig.src.status == Stopping then Dec32(old(node.sig.src.pending)) else old(node.sig.src.pending)
    ensures node.sig.src.status == Stopping && node.sig.src.pending == 0 && !old(svr.inqueue) ==>
              rt.active == old(rt.active) + [svr] && svr.inqueue
    ensures !(node.sig.src.status == Stopping && node.sig.src.pending == 0 && !old(svr.inqueue)) ==>
              rt.active == old(rt.active) && svr.inqueue == old(svr.inqueue)
  {
    var src := node.sig.src;
    d := Route(src.hasRefactor, node.slot == rt.logger, node.slot.hasHandler, outcome);
    // the hooks run here; a copied payload is released and the node kept for the free list
    if src.status == Stopping {
      src.pending := Dec32(src.pending);
      if src.pending == 0 && !svr.inqueue {
        Enqueue(rt, svr);
      }
    }
  }

  /**
   * One node of the second phase, corrected: every delivered signal is taken
   * off its source's pending count, and a STOPPING source other than the
   * service being dispatched is queued when its count reaches zero, so that
   * its own DispatchEnd can delete it. The service being dispatched is never
   * queued here: its own DispatchEnd decides on its deletion.
   */
  method DeliverFixed(rt: Runtime, svr: Service, node: Node, outcome: Outcome) returns (d: Delivery)
    requires node.sig.src != null && node.sig.src.pending < U32
    requires node.sig.src in rt.active ==> node.sig.src.inqueue
    modifies node.sig.src`pending, rt`active, node.sig.src`inqueue
    ensures d == RouteOf(node, rt.logger, outcome)
    ensures node.sig.src.pending == Dec32(old(node.sig.src.pending))
    ensures node.sig.src != svr && node.sig.src.status == Stopping && node.sig.src.pending == 0 && !old(node.sig.src.inqueue) ==>
              rt.active == old(rt.active) + [node.sig.src] && node.sig.src.inqueue
    ensures !(node.sig.src != svr && node.sig.src.status == Stopping && node.sig.src.pending == 0 && !old(node.sig.src.inqueue)) ==>
              rt.active == old(rt.active) && node.sig.src.inqueue == old(node.sig.src.inqueue)
  {
    var src := node.sig.src;
    d := Route(src.hasRefactor, node.slot == rt.logger, node.slot.hasHandler, outcome);
    src.pending := Dec32(src.pending);
    if src != svr && src.status == Stopping && src.pending == 0 && !src.inqueue {
      Enqueue(rt, src);
    }
  }

  /** The services that sent the signals of `batch`. */
  function Sources(batch: seq<Node>): (srcs: set<Service>)
    requires forall k | 0 <= k < |batch| :: batch[k].sig.src != null
    ensures forall k | 0 <= k < |batch| :: batch[k].sig.src in srcs
  {
    set k | 0 <= k < |batch| :: batch[k].sig.src
  }

  /**
   * What a delivery pass reads and writes besides the hooks, as values: the
   * sources' pending counts, the queued flags, and the services it appends
   * to the ready queue, in order.
   */
  datatype Pass = Pass(count: map<Service, nat>, queued: map<Service, bool>, woken: seq<Service>)

  /** Every count fits 32 bits and every counted service has a queued flag. */
  predicate Fits(p: Pass)
  {
    p.count.Keys <= p.queued.Keys && forall s | s in p.count :: p.count[s] < U32
  }

  /** `p` and `status` know every source of `batch`, and `p` the queued flag of `svr`. */
  predicate Covers(batch: seq<Node>, p: Pass, status: map<Service, Status>, svr: Service)
  {
    && Fits(p) && svr in p.queued
    && forall k | 0 <= k < |batch| :: batch[k].sig.src != null && batch[k].sig.src in p.count && batch[k].sig.src in status
  }

  lemma CoversPrefix(batch: seq<Node>, n: nat, p: Pass, status: map<Service, Status>, svr: Service)
    requires Covers(batch, p, status, svr) && n <= |batch|
    ensures Covers(batch[..n], p, status, svr)
  {
  }

  /**
   * One delivery as written, of a signal from `src` while `svr` is dispatched:
   * only a STOPPING source's count goes down, and when it reaches zero `svr`
   * is queued unless it already is.
   */
  function DeliverStep(p: Pass, status: map<Service, Status>, svr: Service, src: Service): (r: Pass)
    requires Fits(p) && src in p.count && src in status && svr in p.queued
    ensures Fits(r) && r.count.Keys == p.count.Keys && r.queued.Keys == p.queued.Keys
  {
    if status[src] != Stopping then p
    else
      var c := Dec32(p.count[src]);
      if c == 0 && !p.queued[svr] then Pass(p.count[src := c], p.queued[svr := true], p.woken + [svr])
      else Pass(p.count[src := c], p.queued, p.woken)
  }

  /**
   * One delivery, corrected: the source's count goes down, and a STOPPING
   * source other than `svr` whose count reaches zero is queued unless it
   * already is.
   */
  function DeliverStepFixed(p: Pass, status: map<Service, Status>, svr: Service, src: Service): (r: Pass)
    requires Fits(p) && src in p.count && src in status && svr in p.queued
    ensures Fits(r) && r.count.Keys == p.count.Keys && r.queued.Keys == p.queued.Keys
  {
    var c := Dec32(p.count[src]);
    if src != svr && status[src] == Stopping && c == 0 && !p.queued[src]
    then Pass(p.count[src := c], p.queued[src := true], p.woken + [src])
    else Pass(p.count[src := c], p.queued, p.woken)
  }

  /** The as-written steps over `batch` in queue order. */
  function DeliverPass(batch: seq<Node>, p: Pass, status: map<Service, Status>, svr: Service): (r: Pass)
    requires Covers(batch, p, status, svr)
    ensures Fits(r) && r.count.Keys == p.count.Keys && r.queued.Keys == p.queued.Keys
  {
    if batch == [] then p
    else
      CoversPrefix(batch, |batch| - 1, p, status, svr);
      DeliverStep(DeliverPass(batch[..|batch| - 1], p, status, svr), status, svr, batch[|batch| - 1].sig.src)
  }

  /** The corrected steps over `batch` in queue order. */
  function DeliverPassFixed(batch: seq<Node>, p: Pass, status: map<Service, Status>, svr: Service): (r: Pass)
    requires Covers(batch, p, status, svr)
    ensures Fits(r) && r.count.Keys == p.count.Keys && r.queued.Keys == p.queued.Keys
  {
    if batch == [] then p
    else
      CoversPrefix(batch, |batch| - 1, p, status, svr);
      DeliverStepFixed(DeliverPassFixed(batch[..|batch| - 1], p, status, svr), status, svr, batch[|batch| - 1].sig.src)
  }

  /** What `c` calls of lk_dec leave of the 32-bit count `p`. */
  function Minus32(p: nat, c: nat): (r: nat)
    requires p < U32
    ensures r < U32
  {
    if c == 0 then p else Dec32(Minus32(p, c - 1))
  }

  /** `c` decrements of a 32-bit count are a subtraction that wraps around at zero. */
  lemma {:induction false} Minus32Wraps(p: nat, c: nat)
    requires p < U32
    ensures Minus32(p, c) == (p - c) % U32
  {
    if c > 0 {
      Minus32Wraps(p, c - 1);
    }
  }

  /** How many nodes of `batch` carry a signal from `s`. */
  function Sent(batch: seq<Node>, s: Service): nat
  {
    if batch == [] then 0
    else Sent(batch[..|batch| - 1], s) + (if batch[|batch| - 1].sig.src == s then 1 else 0)
  }

  /**
   * Whether delivering `batch` in order brings some STOPPING source's count to
   * zero, starting from the counts of `p`.
   */
  predicate SomeDrain(batch: seq<Node>, p: Pass, status: map<Service, Status>, svr: Service)
    requires Covers(batch, p, status, svr)
  {
    && |batch| > 0
    && (|| (CoversPrefix(batch, |batch| - 1, p, status, svr); SomeDrain(batch[..|batch| - 1], p, status, svr))
        || var s := batch[|batch| - 1].sig.src;
           status[s] == Stopping && Minus32(p.count[s], Sent(batch, s)) == 0)
  }

  /** Whether some delivery in `batch` of a signal from `s` brings the count `before` of `s` to zero. */
  predicate Drained(batch: seq<Node>, s: Service, before: nat)
    requires before < U32
  {
    && |batch| > 0
    && (|| Drained(batch[..|batch| - 1], s, before)
        || (batch[|batch| - 1].sig.src == s && Minus32(before, Sent(batch, s)) == 0))
  }

  /** As written, a STOPPING source loses one count per signal it sent; any other keeps its count. */
  lemma {:induction false} PassCounts(batch: seq<Node>, p: Pass, status: map<Service, Status>, svr: Service, s: Service)
    requires Covers(batch, p, status, svr) && s in p.count && s in status
    ensures DeliverPass(batch, p, status, svr).count[s] ==
              if status[s] == Stopping then Minus32(p.count[s], Sent(batch, s)) else p.count[s]
  {
    if batch != [] {
      CoversPrefix(batch, |batch| - 1, p, status, svr);
      PassCounts(batch[..|batch| - 1], p, status, svr, s);
    }
  }

  /**
   * As written, the pass appends to the ready queue at most the service being
   * dispatched, and does so exactly when it was not queued and some STOPPING
   * source's count reaches zero; no other queued flag changes.
   */
  lemma {:induction false} PassQueue(batch: seq<Node>, p: Pass, status: map<Service, Status>, svr: Service)
    requires Covers(batch, p, status, svr)
    ensures DeliverPass(batch, p, status, svr).woken ==
              p.woken + if !p.queued[svr] && SomeDrain(batch, p, status, svr) then [svr] else []
    ensures DeliverPass(batch, p, status, svr).queued ==
              if SomeDrain(batch, p, status, svr) then p.queued[svr := true] else p.queued
  {
    if batch != [] {
      CoversPrefix(batch, |batch| - 1, p, status, svr);
      PassQueue(batch[..|batch| - 1], p, status, svr);
      var s := batch[|batch| - 1].sig.src;
      PassCounts(batch[..|batch| - 1], p, status, svr, s);
    }
  }

  /** Corrected, every source loses one count per signal it sent. */
  lemma {:induction false} PassFixedCounts(batch: seq<Node>, p: Pass, status: map<Service, Status>, svr: Service, s: Service)
    requires Covers(batch, p, status, svr) && s in p.count
    ensures DeliverPassFixed(batch, p, status, svr).count[s] == Minus32(p.count[s], Sent(batch, s))
  {
    if batch != [] {
      CoversPrefix(batch, |batch| - 1, p, status, svr);
      PassFixedCounts(batch[..|batch| - 1], p, status, svr, s);
    }
  }

  /**
   * Corrected, the pass never queues the service being dispatched, queues
   * each service at most once and only STOPPING sources that were not queued,
   * and marks queued exactly those it queues.
   */
  lemma {:induction false} PassFixedQueue(batch: seq<Node>, p: Pass, status: map<Service, Status>, svr: Service)
    requires Covers(batch, p, status, svr) && p.woken == []
    ensures var r := DeliverPassFixed(batch, p, status, svr);
            && svr !in r.woken
            && (forall a, b | 0 <= a < b < |r.woken| :: r.woken[a] != r.woken[b])
            && (forall q | q in r.woken :: q in p.count && q in status && status[q] == Stopping && !p.queued[q])
            && (forall q | q in p.queued :: r.queued[q] == (p.queued[q] || q in r.woken))
  {
    if batch != [] {
      CoversPrefix(batch, |batch| - 1, p, status, svr);
      PassFixedQueue(batch[..|batch| - 1], p, status, svr);
    }
  }

  /**
   * Corrected, a STOPPING source other than the service being dispatched that
   * was not queued, and whose count some delivery brings to zero, is queued.
   */
  lemma {:induction false} PassFixedWakesDrained(batch: seq<Node>, p: Pass, status: map<Service, Status>, svr: Service, s: Service)
    requires Covers(batch, p, status, svr) && p.woken == []
    requires s in p.count && s in status && s != svr && status[s] == Stopping && !p.queued[s]
    requires Drained(batch, s, p.count[s])
    ensures s in DeliverPassFixed(batch, p, status, svr).woken
  {
    CoversPrefix(batch, |batch| - 1, p, status, svr);
    var prefix := batch[..|batch| - 1];
    var r := DeliverPassFixed(prefix, p, status, svr);
    var last := batch[|batch| - 1].sig.src;
    assert DeliverPassFixed(batch, p, status, svr) == DeliverStepFixed(r, status, svr, last);
    if Drained(prefix, s, p.count[s]) {
      PassFixedWakesDrained(prefix, p, status, svr, s);
    } else {
      assert last == s && Minus32(p.count[s], Sent(batch, s)) == 0;
      PassFixedCounts(prefix, p, status, svr, s);
      assert Dec32(r.count[s]) == 0;
      PassFixedQueue(prefix, p, status, svr);
    }
  }

  /** The pending counts and queued flags of `objs`, with nothing appended yet. */
  function Snapshot(objs: set<Service>): (p: Pass)
    reads objs`pending, objs`inqueue
    ensures p.count.Keys == objs && p.queued.Keys == objs && p.woken == []
    ensures forall s {:trigger s.pending} {:trigger s.inqueue} | s in objs :: p.count[s] == s.pending && p.queued[s] == s.inqueue
  {
    Pass(map s | s in objs :: s.pending, map s | s in objs :: s.inqueue, [])
  }

  /** The statuses of `objs`. */
  function Statuses(objs: set<Service>): (m: map<Service, Status>)
    reads objs`status
    ensures m.Keys == objs && forall s {:trigger s.status} | s in objs :: m[s] == s.status
  {
    map s | s in objs :: s.status
  }

  /** The pending counts and queued flags of `objs` are those `p` records. */
  ghost predicate Mirrors(objs: set<Service>, p: Pass)
    reads objs`pending, objs`inqueue
  {
    forall s {:trigger s.pending} {:trigger s.inqueue} | s in objs ::
      s in p.count && s in p.queued && s.pending == p.count[s] && s.inqueue == p.queued[s]
  }

  /**
   * The third phase: the nodes join the runtime's free list; a service with
   * new signals is queued again; otherwise a service that is not STOPPING
   * sleeps, and a STOPPING one with nothing pending is deleted.
   */
  method DispatchEnd(rt: Runtime, svr: Service, delivered: seq<Node>) returns (deleted: bool)
    requires svr.main != null && rt.root.main != null && rt.nservices < SIZE_T && Registered(rt, svr)
    modifies rt`freed, rt`active, rt`registry, rt`logger, rt`monitor, rt`nservices, rt`status
    modifies svr`inqueue, svr`status, svr`slots, svr`polls, svr`deleted, svr.polls`pollStatus
    ensures rt.freed == old(rt.freed) + delivered
    ensures svr.signals != [] ==>
              !deleted && rt.active == LkQueue.Enqueued(old(rt.active), svr) && svr.inqueue && svr.status == old(svr.status)
    ensures svr.signals == [] && old(svr.status) != Stopping ==>
              !deleted && svr.status == Sleeping && rt.active == old(rt.active) && svr.inqueue == old(svr.inqueue)
    ensures svr.signals == [] && old(svr.status) == Stopping ==>
              deleted == (svr.pending == 0) && svr.status == Stopping &&
              svr.inqueue == old(svr.inqueue) && rt.active == old(rt.active)
    ensures deleted ==>
              && svr.deleted == (old(svr.deleted) || svr != rt.root)
              && svr.slots == [] && svr.polls == []
              && rt.registry == old(rt.registry) - Names(old(svr.slots)) - Names(old(svr.polls))
              && rt.nservices == (if svr.weak then old(rt.nservices) else DecSize(old(rt.nservices)))
              && rt.status == (if ShouldStop(rt.nservices, old(rt.root.main.hasHandler)) then Stopping else old(rt.status))
    ensures !deleted ==>
              rt.registry == old(rt.registry) && rt.nservices == old(rt.nservices) &&
              rt.status == old(rt.status) && svr.deleted == old(svr.deleted)
  {
    rt.freed := rt.freed + delivered;
    deleted := false;
    if svr.signals != [] {
      Enqueue(rt, svr);
    } else if svr.status != Stopping {
      svr.status := Sleeping;
    } else if svr.pending == 0 {
      deleted := true;
    }
    if deleted {
      var _ := DelService(rt, svr);
    }
  }

  /**
   * The heap agrees with a pass: the counts and queued flags of `objs` are
   * those of `p`, their statuses those of `status`, and the ready queue is
   * `base` followed by the services `p` appended.
   */
  ghost predicate Tracked(rt: Runtime, objs: set<Service>, p: Pass, base: seq<Service>, status: map<Service, Status>)
    reads rt`active, objs`pending, objs`inqueue, objs`status
  {
    && Fits(p) && p.count.Keys == objs && p.queued.Keys == objs && status.Keys == objs
    && Mirrors(objs, p) && rt.active == base + p.woken
    && forall s {:trigger s.status} | s in objs :: s.status == status[s]
  }

  /**
   * The services of `objs` on the ready queue are marked as queued, as
   * ReadyMarked says of every queued service.
   */
  ghost predicate Marked(rt: Runtime, objs: set<Service>)
    reads rt`active, objs`inqueue
  {
    forall s {:trigger s.inqueue} | s in objs && s in rt.active :: s.inqueue
  }

  /** Corrected, the pass never queues the service being dispatched. */
  lemma PassFixedSkipsSelf(batch: seq<Node>, p: Pass, status: map<Service, Status>, svr: Service)
    requires Covers(batch, p, status, svr) && p.woken == []
    ensures svr !in DeliverPassFixed(batch, p, status, svr).woken
  {
    PassFixedQueue(batch, p, status, svr);
  }

  /** Routing one more node of a batch appends its route. */
  lemma RoutesSnoc(batch: seq<Node>, logger: Slot?, outcomes: seq<Outcome>, i: nat)
    requires i < |batch| == |outcomes| && forall k | 0 <= k < |batch| :: batch[k].sig.src != null
    ensures RoutesOf(batch[..i + 1], logger, outcomes[..i + 1])
            == RoutesOf(batch[..i], logger, outcomes[..i]) + [RouteOf(batch[i], logger, outcomes[i])]
  {
  }

  /** A snapshot of `objs` whose counts fit 32 bits is a pass the heap agrees with. */
  lemma SnapshotTracked(rt: Runtime, objs: set<Service>)
    requires forall s {:trigger s.pending} | s in objs :: s.pending < U32
    ensures Tracked(rt, objs, Snapshot(objs), rt.active, Statuses(objs))
  {
  }

  /** Deliver, seen as one DeliverStep of a pass the heap agrees with; `route` is the node's route. */
  method DeliverTracked(rt: Runtime, svr: Service, node: Node, outcome: Outcome,
                        ghost objs: set<Service>, ghost p: Pass, ghost status: map<Service, Status>, ghost base: seq<Service>)
    returns (d: Delivery)
    requires svr in objs && node.sig.src in objs && Tracked(rt, objs, p, base, status)
    requires Marked(rt, {svr})
    modifies node.sig.src`pending, rt`active, svr`inqueue
    ensures d == RouteOf(node, rt.logger, outcome)
    ensures Tracked(rt, objs, DeliverStep(p, status, svr, node.sig.src), base, status)
    ensures Marked(rt, {svr})
  {
    d := Deliver(rt, svr, node, outcome);
  }

  /** DeliverFixed, seen as one DeliverStepFixed of a pass the heap agrees with. */
  method DeliverTrackedFixed(rt: Runtime, svr: Service, node: Node, outcome: Outcome,
                             ghost objs: set<Service>, ghost p: Pass, ghost status: map<Service, Status>, ghost base: seq<Service>)
    returns (d: Delivery)
    requires svr in objs && node.sig.src in objs && Tracked(rt, objs, p, base, status) && Marked(rt, objs)
    modifies node.sig.src`pending, rt`active, node.sig.src`inqueue
    ensures d == RouteOf(node, rt.logger, outcome)
    ensures Tracked(rt, objs, DeliverStepFixed(p, status, svr, node.sig.src), base, status)
    ensures Marked(rt, objs)
  {
    d := DeliverFixed(rt, svr, node, outcome);
  }

  /** One delivery step, as written or (when `fixed`) corrected. */
  function StepOf(fixed: bool, p: Pass, status: map<Service, Status>, svr: Service, src: Service): (r: Pass)
    requires Fits(p) && src in p.count && src in status && svr in p.queued
  {
    if fixed then DeliverStepFixed(p, status, svr, src) else DeliverStep(p, status, svr, src)
  }

  /** `trail[k + 1]` is `trail[k]` after the step for the signal of `batch[k]`. */
  ghost predicate StepAt(fixed: bool, batch: seq<Node>, trail: seq<Pass>, k: int, status: map<Service, Status>, svr: Service)
  {
    && 0 <= k < |batch| && k + 1 < |trail|
    && Fits(trail[k]) && batch[k].sig.src in trail[k].count && batch[k].sig.src in status && svr in trail[k].queued
    && trail[k + 1] == StepOf(fixed, trail[k], status, svr, batch[k].sig.src)
  }

  /** The passes a delivery loop goes through, one per node delivered so far. */
  ghost predicate Trail(fixed: bool, batch: seq<Node>, trail: seq<Pass>, status: map<Service, Status>, svr: Service)
  {
    && |trail| <= |batch| + 1
    && forall k | 0 <= k < |trail| - 1 :: StepAt(fixed, batch, trail, k, status, svr)
  }

  lemma TrailExtend(fixed: bool, batch: seq<Node>, trail: seq<Pass>, status: map<Service, Status>, svr: Service)
    requires Trail(fixed, batch, trail, status, svr) && 0 < |trail| <= |batch|
    requires var p := trail[|trail| - 1];
             Fits(p) && batch[|trail| - 1].sig.src in p.count && batch[|trail| - 1].sig.src in status && svr in p.queued
    ensures Trail(fixed, batch, trail + [StepOf(fixed, trail[|trail| - 1], status, svr, batch[|trail| - 1].sig.src)], status, svr)
  {
    var t := trail + [StepOf(fixed, trail[|trail| - 1], status, svr, batch[|trail| - 1].sig.src)];
    forall k | 0 <= k < |t| - 1
      ensures StepAt(fixed, batch, t, k, status, svr)
    {
      if k < |trail| - 1 {
        assert StepAt(fixed, batch, trail, k, status, svr);
      }
    }
  }

  /** A trail from `trail[0]` over the first `n` nodes ends where the pass over them does. */
  lemma {:induction false} TrailIsPass(fixed: bool, batch: seq<Node>, trail: seq<Pass>, n: nat, status: map<Service, Status>, svr: Service)
    requires Trail(fixed, batch, trail, status, svr) && n < |trail| && Covers(batch, trail[0], status, svr)
    ensures trail[n] == if fixed then DeliverPassFixed(batch[..n], trail[0], status, svr)
                        else DeliverPass(batch[..n], trail[0], status, svr)
  {
    if n > 0 {
      assert StepAt(fixed, batch, trail, n - 1, status, svr);
      TrailIsPass(fixed, batch, trail, n - 1, status, svr);
      assert batch[..n][..n - 1] == batch[..n - 1];
    }
  }

  lemma TrailIsWholePass(fixed: bool, batch: seq<Node>, trail: seq<Pass>, status: map<Service, Status>, svr: Service)
    requires Trail(fixed, batch, trail, status, svr) && |trail| == |batch| + 1 && Covers(batch, trail[0], status, svr)
    ensures trail[|batch|] == if fixed then DeliverPassFixed(batch, trail[0], status, svr)
                              else DeliverPass(batch, trail[0], status, svr)
  {
    TrailIsPass(fixed, batch, trail, |batch|, status, svr);
    assert batch[..|batch|] == batch;
  }

  /**
   * The second phase over a whole batch, in queue order, as written: each
   * node is routed as the hooks stood when the pass began, and the counts and
   * queued flags of `objs` (the batch's sources and `svr`) and the ready
   * queue end as DeliverPass computes from where they started.
   */
  method DeliverAll(rt: Runtime, svr: Service, batch: seq<Node>, outcomes: seq<Outcome>,
                    ghost objs: set<Service>, ghost p0: Pass, ghost status: map<Service, Status>)
    returns (deliveries: seq<Delivery>)
    requires |outcomes| == |batch|
    requires svr in objs && forall k | 0 <= k < |batch| :: batch[k].sig.src in objs
    requires Tracked(rt, objs, p0, rt.active, status) && Marked(rt, {svr})
    modifies objs`pending, rt`active, svr`inqueue
    ensures deliveries == RoutesOf(batch, rt.logger, outcomes)
    ensures Covers(batch, p0, status, svr)
    ensures Tracked(rt, objs, DeliverPass(batch, p0, status, svr), old(rt.active), status)
  {
    ghost var trail := [p0];
    deliveries := [];
    var i := 0;
    while i < |batch|
      invariant 0 <= i <= |batch| && |deliveries| == i
      invariant deliveries == RoutesOf(batch[..i], rt.logger, outcomes[..i])
      invariant |trail| == i + 1 && trail[0] == p0 && Trail(false, batch, trail, status, svr)
      invariant Tracked(rt, objs, trail[i], old(rt.active), status) && Marked(rt, {svr})
    {
      var d := DeliverTracked(rt, svr, batch[i], outcomes[i], objs, trail[i], status, old(rt.active));
      RoutesSnoc(batch, rt.logger, outcomes, i);
      TrailExtend(false, batch, trail, status, svr);
      trail := trail + [DeliverStep(trail[i], status, svr, batch[i].sig.src)];
      deliveries := deliveries + [d];
      i := i + 1;
    }
    TrailIsWholePass(false, batch, trail, status, svr);
    assert batch[..i] == batch && outcomes[..i] == outcomes;
  }

  /** The second phase over a whole batch, corrected: as DeliverAll, with DeliverPassFixed. */
  method DeliverAllFixed(rt: Runtime, svr: Service, batch: seq<Node>, outcomes: seq<Outcome>,
                         ghost objs: set<Service>, ghost p0: Pass, ghost status: map<Service, Status>)
    returns (deliveries: seq<Delivery>)
    requires |outcomes| == |batch|
    requires svr in objs && forall k | 0 <= k < |batch| :: batch[k].sig.src in objs
    requires Tracked(rt, objs, p0, rt.active, status) && Marked(rt, objs)
    modifies objs`pending, objs`inqueue, rt`active
    ensures deliveries == RoutesOf(batch, rt.logger, outcomes)
    ensures Covers(batch, p0, status, svr)
    ensures Tracked(rt, objs, DeliverPassFixed(batch, p0, status, svr), old(rt.active), status)
  {
    ghost var trail := [p0];
    deliveries := [];
    var i := 0;
    while i < |batch|
      invariant 0 <= i <= |batch| && |deliveries| == i
      invariant deliveries == RoutesOf(batch[..i], rt.logger, outcomes[..i])
      invariant |trail| == i + 1 && trail[0] == p0 && Trail(true, batch, trail, status, svr)
      invariant Tracked(rt, objs, trail[i], old(rt.active), status) && Marked(rt, objs)
    {
      var d := DeliverTrackedFixed(rt, svr, batch[i], outcomes[i], objs, trail[i], status, old(rt.active));
      RoutesSnoc(batch, rt.logger, outcomes, i);
      TrailExtend(true, batch, trail, status, svr);
      trail := trail + [DeliverStepFixed(trail[i], status, svr, batch[i].sig.src)];
      deliveries := deliveries + [d];
      i := i + 1;
    }
    TrailIsWholePass(true, batch, trail, status, svr);
    assert batch[..i] == batch && outcomes[..i] == outcomes;
  }

  /** The first two phases: the whole queue is taken and delivered as DeliverAll says. */
  method DeliverQueue(rt: Runtime, svr: Service, outcomes: seq<Outcome>,
                      ghost objs: set<Service>, ghost p0: Pass, ghost status: map<Service, Status>)
    returns (deliveries: seq<Delivery>, batch: seq<Node>)
    requires |outcomes| == |svr.signals|
    requires svr in objs && forall k | 0 <= k < |svr.signals| :: svr.signals[k].sig.src in objs
    requires Tracked(rt, objs, p0, rt.active, status) && Marked(rt, {svr})
    modifies svr`signals, objs`pending, rt`active, svr`inqueue
    ensures batch == old(svr.signals) && svr.signals == []
    ensures unchanged(svr`main, svr`status, svr`slots, svr`polls, svr`deleted, rt`freed, rt`registry, rt`nservices, rt`logger)
    ensures deliveries == old(RoutesOf(svr.signals, rt.logger, outcomes))
    ensures Covers(batch, p0, status, svr)
    ensures Mirrors(objs, DeliverPass(batch, p0, status, svr))
    ensures rt.active == old(rt.active) + DeliverPass(batch, p0, status, svr).woken
  {
    batch := DispatchBegin(svr);
    deliveries := DeliverAll(rt, svr, batch, outcomes, objs, p0, status);
  }

  /** The first two phases with the corrected delivery step. */
  method DeliverQueueFixed(rt: Runtime, svr: Service, outcomes: seq<Outcome>,
                           ghost objs: set<Service>, ghost p0: Pass, ghost status: map<Service, Status>)
    returns (deliveries: seq<Delivery>, batch: seq<Node>)
    requires |outcomes| == |svr.signals|
    requires svr in objs && forall k | 0 <= k < |svr.signals| :: svr.signals[k].sig.src in objs
    requires Tracked(rt, objs, p0, rt.active, status) && Marked(rt, objs)
    modifies svr`signals, objs`pending, objs`inqueue, rt`active
    ensures batch == old(svr.signals) && svr.signals == []
    ensures unchanged(svr`main, svr`status, svr`slots, svr`polls, svr`deleted, rt`freed, rt`registry, rt`nservices, rt`logger)
    ensures deliveries == old(RoutesOf(svr.signals, rt.logger, outcomes))
    ensures Covers(batch, p0, status, svr)
    ensures Mirrors(objs, DeliverPassFixed(batch, p0, status, svr))
    ensures rt.active == old(rt.active) + DeliverPassFixed(batch, p0, status, svr).woken
    ensures (svr in rt.active) == (svr in old(rt.active))
  {
    batch := DispatchBegin(svr);
    deliveries := DeliverAllFixed(rt, svr, batch, outcomes, objs, p0, status);
    PassFixedSkipsSelf(batch, p0, status, svr);
  }

  /**
   * The third phase after a pass that left the queue empty: the counts and
   * queued flags of `objs` and the ready queue stay as the pass left them.
   */
  method DispatchEndAfterPass(rt: Runtime, svr: Service, delivered: seq<Node>, ghost objs: set<Service>, ghost p: Pass)
    returns (deleted: bool)
    requires svr.signals == [] && Mirrors(objs, p)
    requires svr.main != null && rt.root.main != null && rt.nservices < SIZE_T && Registered(rt, svr)
    modifies rt`freed, rt`active, rt`registry, rt`logger, rt`monitor, rt`nservices, rt`status
    modifies svr`inqueue, svr`status, svr`slots, svr`polls, svr`deleted, svr.polls`pollStatus
    ensures rt.freed == old(rt.freed) + delivered && rt.active == old(rt.active) && Mirrors(objs, p)
    ensures old(svr.status) != Stopping ==> !deleted && svr.status == Sleeping
    ensures old(svr.status) == Stopping ==> deleted == (svr.pending == 0)
    ensures deleted ==> svr.deleted == (old(svr.deleted) || svr != rt.root) && svr.slots == [] && svr.polls == []
  {
    deleted := DispatchEnd(rt, svr, delivered);
  }

  /**
   * lkT_dispatchL as written: every queued signal is routed in queue order;
   * the counts and queued flags of `objs` (any set holding the queue's
   * sources and the service) and the ready queue change as DeliverPass says;
   * all nodes are recycled; and the service then sleeps, or, when STOPPING
   * with nothing pending, is deleted, whether or not the pass queued it.
   */
  method Dispatch(rt: Runtime, svr: Service, outcomes: seq<Outcome>, ghost objs: set<Service>)
    returns (deliveries: seq<Delivery>, deleted: bool)
    requires |outcomes| == |svr.signals|
    requires svr in objs && forall k | 0 <= k < |svr.signals| :: svr.signals[k].sig.src in objs
    requires forall s {:trigger s.pending} | s in objs :: s.pending < U32
    requires svr.main != null && rt.root.main != null && rt.nservices < SIZE_T && Registered(rt, svr)
    requires Marked(rt, {svr})
    modifies svr`signals, objs`pending
    modifies rt`freed, rt`active, rt`registry, rt`logger, rt`monitor, rt`nservices, rt`status
    modifies svr`inqueue, svr`status, svr`slots, svr`polls, svr`deleted, svr.polls`pollStatus
    ensures deliveries == old(RoutesOf(svr.signals, rt.logger, outcomes))
    ensures rt.freed == old(rt.freed) + old(svr.signals) && svr.signals == []
    ensures old(Covers(svr.signals, Snapshot(objs), Statuses(objs), svr))
    ensures Mirrors(objs, old(DeliverPass(svr.signals, Snapshot(objs), Statuses(objs), svr)))
    ensures rt.active == old(rt.active) + old(DeliverPass(svr.signals, Snapshot(objs), Statuses(objs), svr)).woken
    ensures old(svr.status) != Stopping ==> !deleted && svr.status == Sleeping
    ensures old(svr.status) == Stopping ==> deleted == (svr.pending == 0)
    ensures deleted ==> svr.deleted == (old(svr.deleted) || svr != rt.root) && svr.slots == [] && svr.polls == []
  {
    ghost var p0 := Snapshot(objs);
    ghost var status := Statuses(objs);
    SnapshotTracked(rt, objs);
    var batch;
    deliveries, batch := DeliverQueue(rt, svr, outcomes, objs, p0, status);
    deleted := DispatchEndAfterPass(rt, svr, batch, objs, DeliverPass(batch, p0, status, svr));
  }

  /**
   * lkT_dispatchL with the corrected delivery step: as Dispatch, with the
   * counts, flags and ready queue of DeliverPassFixed, so that the service
   * being dispatched is on the ready queue afterwards only if it was before:
   * a deleted service that was not queued is not left on the ready queue.
   */
  method DispatchFixed(rt: Runtime, svr: Service, outcomes: seq<Outcome>, ghost objs: set<Service>)
    returns (deliveries: seq<Delivery>, deleted: bool)
    requires |outcomes| == |svr.signals|
    requires svr in objs && forall k | 0 <= k < |svr.signals| :: svr.signals[k].sig.src in objs
    requires forall s {:trigger s.pending} | s in objs :: s.pending < U32
    requires svr.main != null && rt.root.main != null && rt.nservices < SIZE_T && Registered(rt, svr)
    requires Marked(rt, objs)
    modifies svr`signals, objs`pending, objs`inqueue
    modifies rt`freed, rt`active, rt`registry, rt`logger, rt`monitor, rt`nservices, rt`status
    modifies svr`inqueue, svr`status, svr`slots, svr`polls, svr`deleted, svr.polls`pollStatus
    ensures deliveries == old(RoutesOf(svr.signals, rt.logger, outcomes))
    ensures rt.freed == old(rt.freed) + old(svr.signals) && svr.signals == []
    ensures old(Covers(svr.signals, Snapshot(objs), Statuses(objs), svr))
    ensures Mirrors(objs, old(DeliverPassFixed(svr.signals, Snapshot(objs), Statuses(objs), svr)))
    ensures rt.active == old(rt.active) + old(DeliverPassFixed(svr.signals, Snapshot(objs), Statuses(objs), svr)).woken
    ensures old(svr.status) != Stopping ==> !deleted && svr.status == Sleeping
    ensures old(svr.status) == Stopping ==> deleted == (svr.pending == 0)
    ensures deleted ==> svr.deleted == (old(svr.deleted) || svr != rt.root) && svr.slots == [] && svr.polls == []
    ensures (svr in rt.active) == (svr in old(rt.active))
  {
    ghost var p0 := Snapshot(objs);
    ghost var status := Statuses(objs);
    SnapshotTracked(rt, objs);
    var batch;
    deliveries, batch := DeliverQueueFixed(rt, svr, outcomes, objs, p0, status);
    deleted := DispatchEndAfterPass(rt, svr, batch, objs, DeliverPassFixed(batch, p0, status, svr));
  }
}
