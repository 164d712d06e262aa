/**
 * The runtime state of loki.h (lk_State, lk_Service, lk_Slot, lk_Poll) and the
 * signal emission and routing path.
 *
 * Every critical section of the C code (a region between lk_lock and
 * lk_unlock) is one atomic method here; interleavings between them are
 * possible, interleavings inside them are not modelled. The queues of the
 * runtime (active_services, freed_signals, a service's or a poll's signals)
 * are the node sequences of LkQueue.Queue, kept as `seq` fields.
 */
module LkRuntime {
  import opened Wrappers
  import opened LkCodes
  import opened LkString
  import LkQueue

  /** Width of lk_Atomic (a 32-bit unsigned on POSIX) and of the signal bit fields. */
  const U32: nat := 0x1_0000_0000
  const TYPE_LIMIT: nat := 0x80
  const SIZE_LIMIT: nat := 0x100_0000
  /** Width of size_t. */
  const SIZE_T: nat := 0x1_0000_0000_0000_0000
  /** LK_MAX_NAMESIZE and LK_MAX_SLOTNAME */
  const MAX_NAMESIZE: nat := 32
  const MAX_SLOTNAME: nat := 63

  /**
   * The root service's name: lk_newstate's argument, or "root" without one,
   * copied by lkT_initservice with lk_strncpy into a buffer of MAX_NAMESIZE
   * characters, so a longer name is cut to its first MAX_NAMESIZE - 1.
   */
  function RootName(name: Option<seq<char>>): (r: seq<char>)
    ensures name.None? ==> r == "root"
    ensures name.Some? && '\0' !in name.value ==>
              r == if |name.value| < MAX_NAMESIZE then name.value else name.value[..MAX_NAMESIZE - 1]
  {
    var raw := if name.Some? then name.value else "root";
    if '\0' !in raw then
      StrNCpyReadsBack(raw, MAX_NAMESIZE);
      CString(StrNCpyResult(raw, MAX_NAMESIZE))
    else
      CString(StrNCpyResult(raw, MAX_NAMESIZE))
  }

  /**
   * lk_Signal: source service, payload pointer, copy flag and the 7-bit type,
   * 24-bit size and 32-bit session fields.
   */
  datatype Signal = Signal(src: Service?, data: array?<char>, copy: bool, tag: nat, size: nat, session: nat)
  {
    predicate FieldsFit() {
      tag < TYPE_LIMIT && size < SIZE_LIMIT && session < U32
    }
  }

  /** lk_SignalNode: a signal and the slot it goes to. */
  datatype Node = Node(slot: Slot, sig: Signal)

  /** lk_Slot, and lk_Poll when `isPoll` (the poll's own status and queue). */
  class Slot {
    const name: seq<char>
    const isPoll: bool
    const service: Service
    const hasHandler: bool
    var pollStatus: Status
    var pollSignals: seq<Node>

    constructor (name: seq<char>, isPoll: bool, service: Service, hasHandler: bool)
      ensures this.name == name && this.isPoll == isPoll && this.service == service
      ensures this.hasHandler == hasHandler
      ensures pollStatus == Working && pollSignals == []
    {
      this.name := name;
      this.isPoll := isPoll;
      this.service := service;
      this.hasHandler := hasHandler;
      pollStatus := Working;
      pollSignals := [];
    }
  }

  /** lk_Service: its own slot, its queue, its lifecycle state and counters. */
  class Service {
    const name: seq<char>
    /** the service's own slot (`svr->slot`); lkT_isservice holds of it */
    var main: Slot?
    const hasRefactor: bool
    var status: Status
    var weak: bool
    var inqueue: bool
    /** signals emitted by this service (lk_Atomic, 32 bits) */
    var pending: nat
    var signals: seq<Node>
    var slots: seq<Slot>
    var polls: seq<Slot>
    /** set when lkT_delserviceL frees the service */
    ghost var deleted: bool

    /** lkT_initservice: a fresh service is INITIALING, empty, and its slot list is its own slot. */
    constructor (name: seq<char>)
      ensures this.name == name && status == Initialing
      ensures main != null && main.service == this && main.name == name && !main.isPoll
      ensures fresh(main) && !main.hasHandler
      ensures slots == [main] && polls == [] && signals == []
      ensures !weak && !inqueue && pending == 0 && !hasRefactor && !deleted
    {
      this.name := name;
      status := Initialing;
      hasRefactor := false;
      weak := false;
      inqueue := false;
      pending := 0;
      signals := [];
      polls := [];
      deleted := false;
      slots := [];
      main := null;
      new;
      var s := new Slot(name, false, this, false);
      main := s;
      slots := [s];
    }
  }

  /** lk_State, without its threads, locks, tables other than the slot registry, and buffers. */
  class Runtime {
    var status: Status
    /** live non-weak services (size_t) */
    var nservices: nat
    var active: seq<Service>
    var freed: seq<Node>
    const root: Service
    /** the `slots` table: qualified name to slot; an entry may hold no slot yet */
    var registry: map<seq<char>, Slot?>
    /** the `preload` table: service name to factory handler, if one was given */
    var preload: map<seq<char>, Option<nat>>
    var logger: Slot?
    var monitor: Slot?

    /**
     * lk_newstate: the root service (named by RootName) is
     * registered and SLEEPING, the runtime is INITIALING and counts one service.
     */
    constructor (name: Option<seq<char>>)
      ensures status == Initialing && nservices == 1
      ensures active == [] && freed == [] && preload == map[]
      ensures root.name == RootName(name)
      ensures root.status == Sleeping && root.main != null && fresh(root) && fresh(root.main)
      ensures root.slots == [root.main] && root.signals == [] && root.polls == []
      ensures !root.main.hasHandler && !root.weak && !root.inqueue && root.pending == 0
      ensures registry == map[root.name := root.main]
      ensures logger == null && monitor == null
    {
      var n := RootName(name);
      var r := new Service(n);
      r.status := Sleeping;
      root := r;
      status := Initialing;
      nservices := 1;
      active := [];
      freed := [];
      preload := map[];
      registry := map[n := r.main];
      logger := null;
      monitor := null;
    }
  }

  /** A service whose lifecycle fields are `st`, `inq`, and whose queue is `q`. */
  ghost predicate ServiceIs(s: Service, st: Status, inq: bool, q: seq<Node>)
    reads s
  {
    s.status == st && s.inqueue == inq && s.signals == q
  }

  /** A SLEEPING service has nothing queued: every operation below keeps this. */
  ghost predicate SleepingIsIdle(s: Service)
    reads s
  {
    s.status == Sleeping ==> s.signals == []
  }

  /** lk_start, without the threads: the runtime goes to WORKING. */
  method Start(rt: Runtime)
    modifies rt`status
    ensures rt.status == Working
  {
    rt.status := Working;
  }

  /**
   * The ready queue as lkT_enqueue and lkT_dequeue keep it: no service twice
   * (the chain of LkQueue.Queue.Valid) and every queued service marked as queued.
   */
  ghost predicate ReadyMarked(rt: Runtime)
    reads rt`active, (set s | s in rt.active)`inqueue
  {
    LkQueue.Distinct(rt.active) && forall s | s in rt.active :: s.inqueue
  }

  /**
   * lkT_enqueue: lkQ_enqueue on the ready queue, whose result is
   * LkQueue.Enqueued, and the service is marked as queued. The macro does not
   * look at the mark: a service not on the queue goes to the back, and one
   * already on it becomes its last element, cutting off the services behind it,
   * which stay marked as queued.
   */
  method Enqueue(rt: Runtime, svr: Service)
    modifies rt`active, svr`inqueue
    ensures rt.active == LkQueue.Enqueued(old(rt.active), svr) && svr.inqueue
    ensures old(ReadyMarked(rt)) ==> ReadyMarked(rt)
  {
    if LkQueue.Distinct(rt.active) {
      LkQueue.EnqueuedDistinct(rt.active, svr);
    }
    rt.active := LkQueue.Enqueued(rt.active, svr);
    svr.inqueue := true;
    assert forall s | s in rt.active :: s in old(rt.active) || s == svr by {
      forall s | s in rt.active
        ensures s in old(rt.active) || s == svr
      {
        var k :| 0 <= k < |rt.active| && rt.active[k] == s;
        assert s == (old(rt.active) + [svr])[k];
      }
    }
  }

  /**
   * lkT_enqueue as evidently intended: a service already marked as queued
   * keeps its place, any other goes to the back. While the ready queue is
   * ReadyMarked, no queued service is ever cut off.
   */
  method EnqueueFixed(rt: Runtime, svr: Service)
    requires ReadyMarked(rt)
    modifies rt`active, svr`inqueue
    ensures ReadyMarked(rt) && svr.inqueue
    ensures old(rt.active) <= rt.active && |rt.active| <= |old(rt.active)| + 1
    ensures svr in old(rt.active) || old(svr.inqueue) ==> rt.active == old(rt.active)
    ensures !old(svr.inqueue) ==> rt.active == old(rt.active) + [svr]
  {
    if !svr.inqueue {
      Enqueue(rt, svr);
    }
  }

  /**
   * lkT_dequeue: the front of the ready queue, no longer marked as queued;
   * null when empty. Taking the front keeps the queue ReadyMarked.
   */
  method DequeueActive(rt: Runtime) returns (svr: Service?)
    modifies rt`active, (set s | s in rt.active)`inqueue
    ensures old(rt.active) == [] ==> svr == null && rt.active == []
    ensures old(rt.active) != [] ==>
              svr == old(rt.active)[0] && rt.active == old(rt.active)[1..] && !svr.inqueue
    ensures forall s | s in old(rt.active) && s != svr :: s.inqueue == old(s.inqueue)
    ensures old(ReadyMarked(rt)) ==> ReadyMarked(rt)
  {
    if rt.active == [] {
      svr := null;
    } else {
      svr := rt.active[0];
      rt.active := rt.active[1..];
      svr.inqueue := false;
    }
  }

  /**
   * lkS_emitpollL: a STOPPING poll drops the node into the runtime's free list
   * and the result is LK_ERR; otherwise the node is appended to the poll's queue.
   */
  method EmitPoll(rt: Runtime, poll: Slot, node: Node) returns (r: int)
    modifies rt`freed, poll`pollSignals
    ensures poll.pollStatus == Stopping ==>
              r == ERR && rt.freed == old(rt.freed) + [node] && poll.pollSignals == old(poll.pollSignals)
    ensures poll.pollStatus != Stopping ==>
              r == OK && rt.freed == old(rt.freed) && poll.pollSignals == old(poll.pollSignals) + [node]
  {
    if poll.pollStatus == Stopping {
      rt.freed := rt.freed + [node];
      r := ERR;
    } else {
      r := OK;
      poll.pollSignals := poll.pollSignals + [node];
    }
  }

  /**
   * lkS_emitslotL: a STOPPING service drops the node into the free list (LK_ERR);
   * otherwise the node is appended to its queue (LK_OK), and a SLEEPING
   * service becomes WORKING and joins the back of the ready queue.
   */
  method EmitSlot(rt: Runtime, svr: Service, node: Node) returns (r: int)
    modifies rt`freed, rt`active, svr`signals, svr`status, svr`inqueue
    ensures old(svr.status) == Stopping ==>
              r == ERR && rt.freed == old(rt.freed) + [node] &&
              ServiceIs(svr, old(svr.status), old(svr.inqueue), old(svr.signals)) &&
              rt.active == old(rt.active)
    ensures old(svr.status) != Stopping ==>
              r == OK && rt.freed == old(rt.freed) && svr.signals == old(svr.signals) + [node]
    ensures old(svr.status) == Sleeping ==>
              svr.status == Working && svr.inqueue && rt.active == LkQueue.Enqueued(old(rt.active), svr)
    ensures old(svr.status) !in {Sleeping, Stopping} ==>
              svr.status == old(svr.status) && svr.inqueue == old(svr.inqueue) && rt.active == old(rt.active)
    ensures SleepingIsIdle(svr)
  {
    r := ERR;
    if svr.status == Stopping {
      rt.freed := rt.freed + [node];
    } else {
      svr.signals := svr.signals + [node];
      if svr.status == Sleeping {
        Enqueue(rt, svr);
        svr.status := Working;
      }
      r := OK;
    }
  }

  /**
   * lkS_emitslotL over EnqueueFixed: as EmitSlot, except that a SLEEPING
   * service already on the ready queue keeps its place there, so the services
   * queued behind it stay queued.
   */
  method EmitSlotFixed(rt: Runtime, svr: Service, node: Node) returns (r: int)
    requires ReadyMarked(rt)
    modifies rt`freed, rt`active, svr`signals, svr`status, svr`inqueue
    ensures old(svr.status) == Stopping ==>
              r == ERR && rt.freed == old(rt.freed) + [node] &&
              ServiceIs(svr, old(svr.status), old(svr.inqueue), old(svr.signals)) &&
              rt.active == old(rt.active)
    ensures old(svr.status) != Stopping ==>
              r == OK && rt.freed == old(rt.freed) && svr.signals == old(svr.signals) + [node]
    ensures old(svr.status) == Sleeping ==>
              svr.status == Working && svr.inqueue &&
              rt.active == old(rt.active) + (if old(svr.inqueue) then [] else [svr])
    ensures old(svr.status) !in {Sleeping, Stopping} ==>
              svr.status == old(svr.status) && svr.inqueue == old(svr.inqueue) && rt.active == old(rt.active)
    ensures old(rt.active) <= rt.active && ReadyMarked(rt)
  {
    r := ERR;
    if svr.status == Stopping {
      rt.freed := rt.freed + [node];
    } else {
      svr.signals := svr.signals + [node];
      if svr.status == Sleeping {
        EnqueueFixed(rt, svr);
        svr.status := Working;
      }
      r := OK;
    }
  }

  /** The signal lk_emit queues: the source defaults to the caller's service, the payload may be a copy. */
  ghost predicate QueuedAs(n: Node, slot: Slot, sig: Signal, self: Service)
    reads if sig.copy && sig.data != null then {sig.data} else {}
    reads if n.sig.data != null then {n.sig.data} else {}
  {
    && n.slot == slot
    && n.sig.src == (if sig.src == null then self else sig.src)
    && n.sig.copy == sig.copy && n.sig.tag == sig.tag && n.sig.size == sig.size
    && n.sig.session == sig.session
    && (!sig.copy ==> n.sig.data == sig.data)
    && (sig.copy ==> sig.data != null && n.sig.data != null && sig.size <= sig.data.Length &&
                     n.sig.data[..] == sig.data[..sig.size] + ['\0'])
  }

  /** The runtime, the caller or the target service is STOPPING: lk_emit refuses. */
  predicate Refused(rt: Status, self: Status, target: Status)
  {
    rt == Stopping || self == Stopping || target == Stopping
  }

  /**
   * lk_emit. The caller's service (lk_self) is `self`.
   * Refused with LK_ERR and no change when the runtime, the caller or the
   * target's service is STOPPING. Otherwise a node is taken from the free list
   * (or allocated), filled with the signal (its own NUL-terminated copy of the
   * payload when `copy` is set), and routed to the poll or the service; the
   * caller's `pending` is then incremented whatever the routing returned.
   */
  method Emit(rt: Runtime, slot: Slot, sig: Signal, self: Service) returns (r: int, ghost n: Node)
    requires sig.copy ==> sig.data != null && sig.size <= sig.data.Length
    modifies rt`freed, rt`active, slot`pollSignals, slot.service`signals, slot.service`status
    modifies slot.service`inqueue, self`pending
    ensures Refused(rt.status, old(self.status), old(slot.service.status)) ==>
              r == ERR && unchanged(rt, slot, slot.service, self)
    ensures !Refused(rt.status, old(self.status), old(slot.service.status)) ==>
              && QueuedAs(n, slot, sig, self)
              && (sig.copy ==> fresh(n.sig.data))
              && self.pending == (old(self.pending) + 1) % U32
              && (slot.isPoll ==>
                    && (slot.pollStatus == Stopping ==>
                          r == ERR && slot.pollSignals == old(slot.pollSignals) &&
                          rt.freed == (if old(rt.freed) == [] then [] else old(rt.freed)[1..]) + [n])
                    && (slot.pollStatus != Stopping ==>
                          r == OK && slot.pollSignals == old(slot.pollSignals) + [n] &&
                          rt.freed == (if old(rt.freed) == [] then [] else old(rt.freed)[1..]))
                    && rt.active == old(rt.active)
                    && slot.service.status == old(slot.service.status)
                    && slot.service.signals == old(slot.service.signals))
              && (!slot.isPoll ==>
                    && r == OK
                    && slot.service.signals == old(slot.service.signals) + [n]
                    && rt.freed == (if old(rt.freed) == [] then [] else old(rt.freed)[1..])
                    && (old(slot.service.status) == Sleeping ==>
                          slot.service.status == Working && slot.service.inqueue &&
                          rt.active == LkQueue.Enqueued(old(rt.active), slot.service))
                    && (old(slot.service.status) != Sleeping ==>
                          slot.service.status == old(slot.service.status) &&
                          slot.service.inqueue == old(slot.service.inqueue) &&
                          rt.active == old(rt.active)))
    ensures old(SleepingIsIdle(slot.service)) ==> SleepingIsIdle(slot.service)
  {
    var svr := slot.service;
    n := Node(slot, sig);
    if rt.status == Stopping || self.status == Stopping || svr.status == Stopping {
      return ERR, n;
    }
    var src := if sig.src == null then self else sig.src;
    // a recycled node from the free list, or a new one; either way it is overwritten
    if rt.freed != [] {
      rt.freed := rt.freed[1..];
    }
    var data := sig.data;
    if sig.copy {
      var buff := new char[sig.size + 1];
      forall i | 0 <= i < sig.size {
        buff[i] := sig.data[i];
      }
      buff[sig.size] := '\0';
      assert buff[..] == sig.data[..sig.size] + ['\0'];
      data := buff;
    }
    var node := Node(slot, Signal(src, data, sig.copy, sig.tag, sig.size, sig.session));
    n := node;
    if slot.isPoll {
      r := EmitPoll(rt, slot, node);
    } else {
      r := EmitSlot(rt, svr, node);
    }
    self.pending := (self.pending + 1) % U32;
  }

  /**
   * lk_emitdata: a copied signal of `size` bytes; the type, size and session are
   * stored into their 7-, 24- and 32-bit fields, so they are truncated.
   */
  method EmitData(rt: Runtime, slot: Slot, tag: nat, session: nat, data: array<char>, size: nat, self: Service)
    returns (r: int, ghost n: Node)
    requires size % SIZE_LIMIT <= data.Length
    modifies rt`freed, rt`active, slot`pollSignals, slot.service`signals, slot.service`status
    modifies slot.service`inqueue, self`pending
    ensures !Refused(rt.status, old(self.status), old(slot.service.status)) ==>
              && n.sig.copy && n.sig.src == self && fresh(n.sig.data)
              && n.sig.tag == tag % TYPE_LIMIT && n.sig.size == size % SIZE_LIMIT
              && n.sig.session == session % U32
              && n.sig.data[..] == old(data[..size % SIZE_LIMIT]) + ['\0']
              && self.pending == (old(self.pending) + 1) % U32
    ensures Refused(rt.status, old(self.status), old(slot.service.status)) ==>
              r == ERR && unchanged(rt, slot, slot.service, self)
  {
    var sig := Signal(null, data, true, tag % TYPE_LIMIT, size % SIZE_LIMIT, session % U32);
    r, n := Emit(rt, slot, sig, self);
  }

  /**
   * lk_wait without its blocking part. The front node is taken before any
   * waiting and the result is decided from it: LK_OK with its signal, else
   * LK_ERR when the poll has stopped, else LK_TIMEOUT; a queued slot gives LK_ERR.
   * A signal that arrives during the wait is left for the next call.
   */
  method Wait(slot: Slot) returns (r: int, sig: Option<Signal>)
    modifies slot`pollSignals
    ensures !slot.isPoll ==> r == ERR && sig == None && slot.pollSignals == old(slot.pollSignals)
    ensures slot.isPoll && old(slot.pollSignals) != [] ==>
              r == OK && sig == Some(old(slot.pollSignals)[0].sig) &&
              slot.pollSignals == old(slot.pollSignals)[1..]
    ensures slot.isPoll && old(slot.pollSignals) == [] ==>
              sig == None && slot.pollSignals == [] &&
              r == (if slot.pollStatus == Stopping then ERR else TIMEOUT)
  {
    if !slot.isPoll {
      return ERR, None;
    }
    if slot.pollSignals == [] {
      sig := None;
      r := if slot.pollStatus == Stopping then ERR else TIMEOUT;
    } else {
      sig := Some(slot.pollSignals[0].sig);
      slot.pollSignals := slot.pollSignals[1..];
      r := OK;
    }
  }
}
