/**
 * Call sequences on a fresh runtime that show where the as-written start-up and dispatch
 * paths lose track of services, next to the same sequences over the corrected steps.
 * Each builds its own runtime, so none of them changes existing state.
 */
module LkScenarios {
  import opened Wrappers
  import opened LkCodes
  import opened LkRuntime
  import opened LkService
  import opened LkDispatch

  /** lk_newstate followed by lk_start: only the root service, asleep, and the runtime WORKING. */
  method StartedRuntime() returns (rt: Runtime)
    ensures fresh(rt) && fresh(rt.root) && fresh(rt.root.main)
    ensures rt.status == Working && rt.nservices == 1 && rt.active == []
    ensures rt.registry == map["root" := rt.root.main] && rt.root.main != null
    ensures rt.root.status == Sleeping && !rt.root.main.hasHandler
    ensures !rt.root.inqueue && rt.root.signals == []
  {
    rt := new Runtime(None);
    Start(rt);
  }

  /**
   * A new service under an unused name whose start-up handler returns
   * LK_OK (over the as-written or the corrected lkT_callhandler): it is
   * registered, asleep with nothing queued, and counted.
   */
  method StartService(rt: Runtime, name: seq<char>, fixed: bool) returns (svr: Service)
    requires |name| < MAX_NAMESIZE && name !in rt.registry
    requires rt.root.main != null && rt.nservices < SIZE_T - 1
    modifies rt`registry, rt`logger, rt`monitor, rt`nservices, rt`status, rt`active
    ensures fresh(svr) && fresh(svr.main) && svr.main != null && svr.main.service == svr && !svr.main.isPoll
    ensures svr.name == name && svr.main.name == name && svr.slots == [svr.main] && svr.polls == []
    ensures svr.status == Sleeping && svr.signals == [] && !svr.inqueue && svr.pending == 0
    ensures !svr.weak && !svr.deleted
    ensures rt.registry == old(rt.registry)[name := svr.main]
    ensures rt.nservices == old(rt.nservices) + 1 && rt.status == old(rt.status) && rt.active == old(rt.active)
  {
    var s := NewService(rt, name);
    assert s != null && NewlyInitialized(s, name);
    var res;
    if fixed {
      res := CallHandlerFixed(rt, s, Returned(OK));
    } else {
      res := CallHandler(rt, s, Returned(OK));
    }
    svr := s;
  }

  /**
   * As written: service "a" starts, then service "b" fails to start. The
   * failed start uncounts "b", which was never counted, so the count falls to
   * one and the runtime stops while "a" is still live.
   */
  method FailedStartStopsRuntime() returns (rt: Runtime, a: Service)
    ensures a.status == Sleeping && !a.weak && !a.deleted
    ensures rt.nservices == 1 && rt.status == Stopping
  {
    rt := StartedRuntime();
    a := StartService(rt, "a", false);
    var y := NewService(rt, "b");
    assert y != null && y != a && NewlyInitialized(y, "b") && Registered(rt, y);
    var rb := CallHandler(rt, y, Returned(ERR));
  }

  /** Corrected: the same sequence leaves the count at two and the runtime WORKING. */
  method FailedStartKeepsRuntime() returns (rt: Runtime, a: Service)
    ensures a.status == Sleeping && !a.weak && !a.deleted
    ensures rt.nservices == 2 && rt.status == Working
  {
    rt := StartedRuntime();
    a := StartService(rt, "a", true);
    var y := NewService(rt, "b");
    assert y != null && y != a && NewlyInitialized(y, "b") && Registered(rt, y);
    var rb := CallHandlerFixed(rt, y, Returned(ERR));
  }

  /** Two started services "x" and "y" on a WORKING runtime, both asleep. */
  method TwoServices() returns (rt: Runtime, x: Service, y: Service)
    ensures fresh(rt) && fresh(x) && fresh(y) && fresh(rt.root) && x != y
    ensures rt.status == Working && rt.active == [] && rt.nservices == 3 && rt.root.main != null
    ensures rt.root.status == Sleeping && !rt.root.inqueue && rt.root.signals == []
    ensures x.status == Sleeping && y.status == Sleeping && x.pending == 0 && y.pending == 0
    ensures x.signals == [] && y.signals == [] && !x.inqueue && !y.inqueue && x.polls == [] && y.polls == []
    ensures !x.deleted && !y.deleted && x != rt.root && y != rt.root
    ensures x.main != null && y.main != null && y.main.service == y && !y.main.isPoll
    ensures Registered(rt, x) && Registered(rt, y)
  {
    rt := StartedRuntime();
    x := StartService(rt, "x", true);
    y := StartService(rt, "y", true);
    assert rt.registry["x"] == x.main && rt.registry["y"] == y.main;
  }

  /** "x" sends one signal to "y"; a worker takes "y" off the ready queue and takes its queue. */
  method SignalTaken() returns (rt: Runtime, x: Service, y: Service, batch: seq<Node>)
    ensures fresh(rt) && fresh(x) && fresh(y) && fresh(rt.root) && x != y && rt.status == Working
    ensures rt.root.status == Sleeping && rt.root != y && x != rt.root && rt.root.main != null && rt.nservices == 3
    ensures x.status == Sleeping && x.signals == [] && x.pending == 1 && !x.inqueue && !x.deleted
    ensures x.main != null && x.polls == [] && Registered(rt, x)
    ensures y.status == Working && y.signals == [] && !y.inqueue && y.polls == [] && y.main != null
    ensures y.main.service == y && !y.main.isPoll && Registered(rt, y)
    ensures rt.active == [] && |batch| == 1 && batch[0].sig.src == x
  {
    rt, x, y := TwoServices();
    var r, n := Emit(rt, y.main, Signal(null, null, false, 0, 0, 0), x);
    var s := DequeueActive(rt);
    batch := DispatchBegin(y);
  }

  /** As written: "x" sends one signal to "y" while WORKING, and "y" handles it. */
  method SignalHandled() returns (rt: Runtime, x: Service)
    ensures fresh(rt) && fresh(x) && x != rt.root && rt.root.main != null && rt.nservices == 3
    ensures x.status == Sleeping && x.signals == [] && x.pending == 1 && !x.inqueue && !x.deleted
    ensures rt.active == [] && x.main != null && x.polls == [] && Registered(rt, x)
  {
    var y, batch;
    rt, x, y, batch := SignalTaken();
    var d := Deliver(rt, y, batch[0], Returned(OK));
    var yDeleted := DispatchEnd(rt, y, batch);
  }

  /** Corrected: the same sequence takes the signal off the count of "x". */
  method SignalHandledFixed() returns (rt: Runtime, x: Service)
    ensures fresh(rt) && fresh(x) && x != rt.root && rt.root.main != null && rt.nservices == 3
    ensures x.status == Sleeping && x.signals == [] && x.pending == 0 && !x.inqueue && !x.deleted
    ensures rt.active == [] && x.main != null && x.polls == [] && Registered(rt, x)
  {
    var y, batch;
    rt, x, y, batch := SignalTaken();
    var d := DeliverFixed(rt, y, batch[0], Returned(OK));
    var yDeleted := DispatchEnd(rt, y, batch);
  }

  /** A sleeping service closes itself, is queued, and a worker dispatches its empty queue. */
  method CloseAndDispatch(rt: Runtime, x: Service) returns (deleted: bool)
    requires x.status == Sleeping && x.signals == [] && !x.inqueue && rt.active == [] && x.polls == []
    requires x.main != null && rt.root.main != null && rt.nservices < SIZE_T && Registered(rt, x)
    modifies rt`active, rt`freed, rt`registry, rt`logger, rt`monitor, rt`nservices, rt`status
    modifies x`status, x`inqueue, x`signals, x`slots, x`polls, x`deleted
    ensures x.status == Stopping && x.signals == [] && !x.inqueue && rt.active == [] && x.pending == old(x.pending)
    ensures deleted == (x.pending == 0)
    ensures deleted ==> x.deleted == (old(x.deleted) || x != rt.root)
    ensures !deleted ==> x.deleted == old(x.deleted)
  {
    var t := Close(rt, Some(x));
    var s := DequeueActive(rt);
    var none := DispatchBegin(x);
    deleted := DispatchEnd(rt, x, none);
  }

  /**
   * As written: after the calls of SignalHandled, "x" closes. It stays STOPPING
   * with a pending count of one and off the ready queue, and is never deleted.
   */
  method SourceNeverDeleted() returns (rt: Runtime, x: Service)
    ensures x.status == Stopping && x.signals == [] && x.pending == 1
    ensures !x.inqueue && rt.active == [] && !x.deleted
  {
    rt, x := SignalHandled();
    var deleted := CloseAndDispatch(rt, x);
  }

  /** Corrected: the same sequence deletes "x" once it closes. */
  method SourceDeleted() returns (rt: Runtime, x: Service)
    ensures x.status == Stopping && x.pending == 0 && x.deleted
  {
    rt, x := SignalHandledFixed();
    var deleted := CloseAndDispatch(rt, x);
  }

  /** "x" sends one signal to "y" and closes; both are on the ready queue. */
  method SentThenClosed() returns (rt: Runtime, x: Service, y: Service)
    ensures fresh(rt) && fresh(x) && fresh(y) && fresh(rt.root) && x != y && rt.status == Working
    ensures rt.root.status == Sleeping && rt.root != y && rt.root != x
    ensures !rt.root.inqueue && rt.root.signals == [] && !y.deleted
    ensures x.status == Stopping && x.signals == [] && x.pending == 1 && x.inqueue && !x.deleted
    ensures y.status == Working && |y.signals| == 1 && y.signals[0].sig.src == x && y.inqueue
    ensures y.polls == [] && y.main != null && y.main.service == y && !y.main.isPoll
    ensures x.polls == [] && x.main != null && Registered(rt, x) && Registered(rt, y)
    ensures rt.active == [y, x] && rt.root.main != null && rt.nservices == 3
  {
    rt, x, y := TwoServices();
    var r, n := Emit(rt, y.main, Signal(null, null, false, 0, 0, 0), x);
    var t := Close(rt, Some(x));
  }

  /**
   * "x" sends one signal to "y" and closes before "y" runs. A worker takes the
   * queue of "y"; meanwhile another dispatches "x", which still has that
   * signal pending and so is not deleted and leaves the ready queue.
   */
  method StopWhileInFlight() returns (rt: Runtime, x: Service, y: Service, batch: seq<Node>)
    ensures fresh(rt) && fresh(x) && fresh(y) && fresh(rt.root) && x != y && rt.status == Working
    ensures rt.root.status == Sleeping && rt.root != y
    ensures x.status == Stopping && x.signals == [] && x.pending == 1 && !x.inqueue && !x.deleted
    ensures y.status == Working && y.signals == [] && !y.inqueue && y.polls == [] && y.main != null
    ensures y.main.service == y && !y.main.isPoll && Registered(rt, y)
    ensures rt.active == [] && |batch| == 1 && batch[0].sig.src == x
    ensures rt.root.main != null && rt.nservices == 3
    ensures !rt.root.inqueue && rt.root.signals == [] && !y.deleted
  {
    rt, x, y := SentThenClosed();
    var first := DequeueActive(rt);
    batch := DispatchBegin(y);
    var second := DequeueActive(rt);
    var none := DispatchBegin(x);
    var xDeleted := DispatchEnd(rt, x, none);
  }

  /**
   * As written: the calls of StopWhileInFlight go on. Delivering the signal
   * brings the count of "x" to zero, but it is "y" that is queued, while being
   * dispatched; "y" then goes to sleep with an empty queue and stays on the
   * ready queue, queued and SLEEPING.
   */
  method SleepingButQueued() returns (rt: Runtime, x: Service, y: Service)
    ensures fresh(rt) && fresh(y) && fresh(rt.root) && rt.root != y && rt.status == Working
    ensures x.status == Stopping && x.pending == 0 && !x.inqueue && !x.deleted
    ensures y.status == Sleeping && y.inqueue && rt.active == [y] && y.main != null && y.main.service == y
    ensures !y.main.isPoll && !y.deleted
    ensures rt.root.status == Sleeping && !rt.root.inqueue && rt.root.signals == [] && rt.root.main != null
  {
    var batch;
    rt, x, y, batch := StopWhileInFlight();
    var d := Deliver(rt, y, batch[0], Returned(OK));
    var yDeleted := DispatchEnd(rt, y, batch);
  }

  /**
   * As written: after the calls of SleepingButQueued a signal from the root
   * wakes "y", and lkT_enqueue makes "y", already the last service queued,
   * the last again: it is queued once. "x" stays STOPPING with nothing
   * pending, off the ready queue, and is never deleted.
   */
  method WrongServiceQueued() returns (rt: Runtime, x: Service, y: Service)
    ensures x.status == Stopping && x.pending == 0 && !x.inqueue && !x.deleted
    ensures y.status == Working && rt.active == [y]
  {
    rt, x, y := SleepingButQueued();
    var r, n := Emit(rt, y.main, Signal(null, null, false, 0, 0, 0), rt.root);
  }

  /**
   * As written: after the calls of SleepingButQueued a signal wakes the root,
   * which is queued behind "y"; then a signal wakes "y", and lkT_enqueue makes
   * "y" the last service queued again, which cuts the root off the ready
   * queue. The root is WORKING with a signal waiting and marked as queued, so
   * neither lk_emit nor a dispatch pass will queue it again.
   */
  method ServiceCutOff() returns (rt: Runtime, y: Service)
    ensures rt.root.status == Working && rt.root.inqueue && |rt.root.signals| == 1
    ensures y.status == Working && rt.active == [y] && rt.root !in rt.active
  {
    var x;
    rt, x, y := SleepingButQueued();
    var r1 := EmitSlot(rt, rt.root, Node(rt.root.main, Signal(rt.root, null, false, 0, 0, 0)));
    assert rt.active == [y, rt.root];
    var r2 := EmitSlot(rt, y, Node(y.main, Signal(rt.root, null, false, 0, 0, 0)));
  }

  /**
   * Corrected: the same sequence with EmitSlotFixed, whose EnqueueFixed leaves
   * the already queued "y" in its place; the root stays queued behind it.
   */
  method ServiceKeptQueued() returns (rt: Runtime, y: Service)
    ensures rt.root.status == Working && rt.root.inqueue && |rt.root.signals| == 1
    ensures y.status == Working && rt.active == [y, rt.root]
  {
    var x;
    rt, x, y := SleepingButQueued();
    var r1 := EmitSlotFixed(rt, rt.root, Node(rt.root.main, Signal(rt.root, null, false, 0, 0, 0)));
    var r2 := EmitSlotFixed(rt, y, Node(y.main, Signal(rt.root, null, false, 0, 0, 0)));
  }

  /**
   * Corrected: in the same sequence "x" is queued when its count reaches zero, and
   * "y" is queued once, by the root's signal.
   */
  method SourceQueued() returns (rt: Runtime, x: Service, y: Service)
    ensures x.status == Stopping && x.pending == 0 && x.inqueue && !x.deleted
    ensures y.status == Working && rt.active == [x, y]
  {
    var batch;
    rt, x, y, batch := StopWhileInFlight();
    var d := DeliverFixed(rt, y, batch[0], Returned(OK));
    var yDeleted := DispatchEnd(rt, y, batch);
    var r, n := Emit(rt, y.main, Signal(null, null, false, 0, 0, 0), rt.root);
  }

  /** "y" sends a signal to itself, which queues it. */
  method SelfSignalled() returns (rt: Runtime, y: Service)
    ensures fresh(rt) && fresh(y) && fresh(rt.root) && y != rt.root && rt.status == Working
    ensures y.status == Working && |y.signals| == 1 && y.signals[0].sig.src == y && y.pending == 1
    ensures y.inqueue && !y.deleted && rt.active == [y]
    ensures y.main != null && y.polls == [] && Registered(rt, y)
    ensures rt.root.main != null && rt.nservices == 3
  {
    var x;
    rt, x, y := TwoServices();
    var r, n := Emit(rt, y.main, Signal(null, null, false, 0, 0, 0), y);
  }

  /**
   * "y" sends a signal to itself and closes; a worker takes "y" off the ready
   * queue and takes its queue, which holds that one signal.
   */
  method SelfSignalTaken() returns (rt: Runtime, y: Service, batch: seq<Node>)
    ensures fresh(rt) && fresh(y) && fresh(rt.root) && y != rt.root && rt.status == Working
    ensures y.status == Stopping && y.signals == [] && y.pending == 1 && !y.inqueue && !y.deleted
    ensures y.main != null && y.polls == [] && Registered(rt, y)
    ensures rt.active == [] && |batch| == 1 && batch[0].sig.src == y
    ensures rt.root.main != null && rt.nservices == 3
  {
    rt, y := SelfSignalled();
    var t := Close(rt, Some(y));
    var s := DequeueActive(rt);
    batch := DispatchBegin(y);
  }

  /**
   * As written: delivering the signal brings the count of "y" to zero while
   * it is STOPPING, so "y" queues itself although it is the service being
   * dispatched; DispatchEnd then deletes it, and the ready queue still holds it.
   */
  method SelfSignalQueuedWhileDeleted() returns (rt: Runtime, y: Service)
    ensures y.deleted && y.inqueue && rt.active == [y]
  {
    var batch;
    rt, y, batch := SelfSignalTaken();
    var d := Deliver(rt, y, batch[0], Returned(OK));
    var deleted := DispatchEnd(rt, y, batch);
  }

  /** Corrected: the same sequence deletes "y" and leaves the ready queue empty. */
  method SelfSignalDeleted() returns (rt: Runtime, y: Service)
    ensures y.deleted && !y.inqueue && rt.active == []
  {
    var batch;
    rt, y, batch := SelfSignalTaken();
    var d := DeliverFixed(rt, y, batch[0], Returned(OK));
    var deleted := DispatchEnd(rt, y, batch);
  }
}
