/**
 * The service lifecycle of loki.h: creating services and slots, running a
 * service's start-up handler, dispatching its queue, closing and deleting it.
 *
 * Handlers are user code: their effect is reduced to the outcome they report
 * (a code or a raised error), which is a parameter of the method that calls them.
 */
module LkService {
  import opened Wrappers
  import opened LkCodes
  import opened LkRuntime
  import LkQueue

  /** lkT_isservice: the slot is a service's own slot. */
  predicate IsService(slot: Slot?)
    reads if slot == null then {} else {slot.service}
  {
    slot != null && slot.service.main == slot
  }

  /** A possibly null service as a set, for frames. */
  function Just(svr: Service?): set<Service>
  {
    if svr == null then {} else {svr}
  }

  /** The names of some slots. */
  function Names(ss: seq<Slot>): set<seq<char>>
  {
    set s | s in ss :: s.name
  }

  /** size_t decrement: wraps around at zero. */
  function DecSize(n: nat): (r: nat)
    requires n < SIZE_T
    ensures r < SIZE_T
    ensures (r + 1) % SIZE_T == n
  {
    if n == 0 then SIZE_T - 1 else n - 1
  }

  /** lk_dec on a 32-bit lk_Atomic: wraps around at zero. */
  function Dec32(n: nat): (r: nat)
    requires n < U32
    ensures r < U32
    ensures (r + 1) % U32 == n
  {
    if n == 0 then U32 - 1 else n - 1
  }

  /**
   * The state lkT_freeslotsL asserts: each slot and poll of the service is
   * what the registry holds under its name, and none is listed twice.
   */
  ghost predicate Registered(rt: Runtime, svr: Service)
    reads rt`registry, svr`slots, svr`polls
  {
    && (forall s | s in svr.slots :: s.name in rt.registry && rt.registry[s.name] == s)
    && (forall p | p in svr.polls :: p.name in rt.registry && rt.registry[p.name] == p)
    && (forall i, j | 0 <= i < j < |svr.slots + svr.polls| :: (svr.slots + svr.polls)[i] != (svr.slots + svr.polls)[j])
  }

  lemma RegisteredNamesDistinct(reg: map<seq<char>, Slot?>, ss: seq<Slot>, i: nat, j: nat)
    requires forall s | s in ss :: s.name in reg && reg[s.name] == s
    requires i < |ss| && j < |ss| && ss[i] != ss[j]
    ensures ss[i].name != ss[j].name
  {
  }

  /**
   * lkT_freeslotsL: every slot and poll of the service leaves the registry
   * (the service's own slot by clearing its entry, the others by lk_delentry),
   * every poll is stopped, and both lists end empty.
   */
  method FreeSlots(rt: Runtime, svr: Service)
    requires Registered(rt, svr)
    modifies rt`registry, svr`slots, svr`polls, svr.polls`pollStatus
    ensures rt.registry == old(rt.registry) - Names(old(svr.slots)) - Names(old(svr.polls))
    ensures svr.slots == [] && svr.polls == []
    ensures forall p | p in old(svr.polls) ::
              p.pollStatus == Stopping
  {
    ghost var reg0 := rt.registry;
    ghost var slots0 := svr.slots;
    ghost var polls0 := svr.polls;
    forall k | 0 <= k < |polls0|
      ensures polls0[k].name !in Names(slots0)
    {
      forall i | 0 <= i < |slots0|
        ensures slots0[i].name != polls0[k].name
      {
        assert (slots0 + polls0)[i] == slots0[i] && (slots0 + polls0)[|slots0| + k] == polls0[k];
        RegisteredNamesDistinct(reg0, slots0 + polls0, i, |slots0| + k);
      }
    }
    forall i, j | 0 <= i < j < |polls0|
      ensures polls0[i] != polls0[j]
    {
      assert (slots0 + polls0)[|slots0| + i] == polls0[i] && (slots0 + polls0)[|slots0| + j] == polls0[j];
    }
    ReleaseSlots(rt, svr);
    StopPolls(rt, svr);
  }

  /** The slot half of lkT_freeslotsL. */
  method ReleaseSlots(rt: Runtime, svr: Service)
    requires Registered(rt, svr)
    modifies rt`registry, svr`slots
    ensures rt.registry == old(rt.registry) - Names(old(svr.slots))
    ensures svr.slots == []
  {
    ghost var slots0 := svr.slots;
    ghost var reg0 := rt.registry;
    var i := 0;
    while svr.slots != []
      invariant 0 <= i <= |slots0| && svr.slots == slots0[i..]
      invariant rt.registry == reg0 - Names(slots0[..i])
      decreases |svr.slots|
    {
      var s := svr.slots[0];
      assert s == slots0[i];
      assert s.name !in Names(slots0[..i]) by {
        forall k | 0 <= k < i
          ensures slots0[k].name != s.name
        {
          assert (slots0 + svr.polls)[k] == slots0[k] && (slots0 + svr.polls)[i] == s;
          RegisteredNamesDistinct(reg0, slots0, k, i);
        }
      }
      // the service's own slot has its entry cleared in place, any other is deleted
      rt.registry := rt.registry - {s.name};
      assert slots0[..i + 1] == slots0[..i] + [s];
      assert Names(slots0[..i + 1]) == Names(slots0[..i]) + {s.name};
      svr.slots := svr.slots[1..];
      i := i + 1;
    }
    assert slots0[..i] == slots0;
  }

  /** The poll half of lkT_freeslotsL: lkS_stoppoll and lk_delentry on each poll. */
  method StopPolls(rt: Runtime, svr: Service)
    requires forall p | p in svr.polls :: p.name in rt.registry && rt.registry[p.name] == p
    requires forall i, j | 0 <= i < j < |svr.polls| :: svr.polls[i] != svr.polls[j]
    modifies rt`registry, svr`polls, svr.polls`pollStatus
    ensures rt.registry == old(rt.registry) - Names(old(svr.polls))
    ensures svr.polls == []
    ensures forall p | p in old(svr.polls) ::
              p.pollStatus == Stopping
  {
    ghost var polls0 := svr.polls;
    ghost var reg0 := rt.registry;
    var j := 0;
    while svr.polls != []
      invariant 0 <= j <= |polls0| && svr.polls == polls0[j..]
      invariant rt.registry == reg0 - Names(polls0[..j])
      invariant forall k | 0 <= k < j :: polls0[k].pollStatus == Stopping
      invariant forall p | p in polls0 :: p.pollSignals == old(p.pollSignals)
      decreases |svr.polls|
    {
      var p := svr.polls[0];
      assert p == polls0[j];
      assert p.name !in Names(polls0[..j]) by {
        forall k | 0 <= k < j
          ensures polls0[k].name != p.name
        {
          RegisteredNamesDistinct(reg0, polls0, k, j);
        }
      }
      p.pollStatus := Stopping;
      rt.registry := rt.registry - {p.name};
      assert polls0[..j + 1] == polls0[..j] + [p];
      assert Names(polls0[..j + 1]) == Names(polls0[..j]) + {p.name};
      svr.polls := svr.polls[1..];
      j := j + 1;
    }
    assert polls0[..j] == polls0;
    assert forall p | p in polls0 :: exists k :: 0 <= k < j && polls0[k] == p;
  }

  /** The runtime stops once no live service is counted, or only the root is and it has no handler. */
  predicate ShouldStop(nservices: nat, rootHasHandler: bool)
  {
    nservices == 0 || (nservices == 1 && !rootHasHandler)
  }

  /**
   * lkT_delserviceL. The service's own handler, if any, is told of the
   * deletion; its slots and polls leave the registry; it stops being the
   * logger or monitor; it is freed unless it is the root; a non-weak service
   * is uncounted (size_t, wrapping at zero); and the runtime stops when
   * ShouldStop holds of the new count. The `weak` flag is read before the
   * service is freed.
   */
  method DelService(rt: Runtime, svr: Service) returns (notified: bool)
    requires svr.signals == []
    requires svr.main != null && rt.root.main != null
    requires rt.nservices < SIZE_T
    requires Registered(rt, svr)
    modifies rt`registry, rt`logger, rt`monitor, rt`nservices, rt`status
    modifies svr`slots, svr`polls, svr`deleted, svr.polls`pollStatus
    ensures notified == svr.main.hasHandler
    ensures rt.registry == old(rt.registry) - Names(old(svr.slots)) - Names(old(svr.polls))
    ensures svr.slots == [] && svr.polls == []
    ensures forall p | p in old(svr.polls) ::
              p.pollStatus == Stopping
    ensures svr.deleted == (old(svr.deleted) || svr != rt.root)
    ensures rt.logger == (if old(rt.logger) == svr.main then null else old(rt.logger))
    ensures rt.monitor == (if old(rt.monitor) == svr.main then null else old(rt.monitor))
    ensures rt.nservices == if svr.weak then old(rt.nservices) else DecSize(old(rt.nservices))
    ensures rt.status == if ShouldStop(rt.nservices, old(rt.root.main.hasHandler)) then Stopping else old(rt.status)
  {
    var rootHasHandler := rt.root.main.hasHandler;
    notified := svr.main.hasHandler;
    FreeSlots(rt, svr);
    if rt.logger == svr.main {
      rt.logger := null;
    }
    if rt.monitor == svr.main {
      rt.monitor := null;
    }
    var weak := svr.weak;
    if svr != rt.root {
      svr.deleted := true;
    }
    if !weak {
      rt.nservices := DecSize(rt.nservices);
    }
    if ShouldStop(rt.nservices, rootHasHandler) {
      rt.status := Stopping;
    }
  }

  /** What a service handler reported: a raised error or a negative code is a failure. */
  predicate Failed(outcome: Outcome)
  {
    outcome.Raised? || outcome.code < 0
  }

  /**
   * lkT_callhandlerL. Only an INITIALING service runs its handler (it is made
   * WORKING first); any other service, or null, is returned as it is. A failed
   * start deletes the service and gives null. Otherwise LK_WEAK marks it weak
   * and any other code counts it as live; it goes to sleep, or to the ready
   * queue if signals arrived meanwhile; a service named "log" or "monitor"
   * becomes the logger or monitor when there is none.
   */
  method CallHandler(rt: Runtime, svr: Service?, outcome: Outcome) returns (res: Service?)
    requires svr != null ==> svr.main != null && rt.root.main != null && rt.nservices < SIZE_T - 1
    requires svr != null && svr.status == Initialing && Failed(outcome) ==>
               svr.signals == [] && Registered(rt, svr)
    modifies rt`registry, rt`logger, rt`monitor, rt`nservices, rt`status, rt`active
    modifies Just(svr)`status, Just(svr)`weak, Just(svr)`inqueue, Just(svr)`slots, Just(svr)`polls
    modifies Just(svr)`deleted
    modifies (if svr == null then {} else set p | p in svr.polls)`pollStatus
    ensures svr == null ==> res == null && unchanged(rt)
    ensures svr != null && old(svr.status) != Initialing ==> res == svr && unchanged(rt, svr)
    ensures svr != null && old(svr.status) == Initialing && Failed(outcome) ==>
              && res == null && svr.status == Working && svr.weak == old(svr.weak) && svr.deleted == (old(svr.deleted) || svr != rt.root)
              && svr.slots == [] && svr.polls == []
              && rt.registry == old(rt.registry) - Names(old(svr.slots)) - Names(old(svr.polls))
              && rt.nservices == (if svr.weak then old(rt.nservices) else DecSize(old(rt.nservices)))
              && rt.status == (if ShouldStop(rt.nservices, old(rt.root.main.hasHandler)) then Stopping else old(rt.status))
    ensures svr != null && old(svr.status) == Initialing && !Failed(outcome) ==>
              && res == svr && svr.deleted == old(svr.deleted)
              && (outcome.code == WEAK ==> svr.weak && rt.nservices == old(rt.nservices))
              && (outcome.code != WEAK ==> svr.weak == old(svr.weak) && rt.nservices == old(rt.nservices) + 1)
              && (old(svr.signals) == [] ==>
                    svr.status == Sleeping && rt.active == old(rt.active) && svr.inqueue == old(svr.inqueue))
              && (old(svr.signals) != [] ==> svr.status == Working && rt.active == LkQueue.Enqueued(old(rt.active), svr) && svr.inqueue)
              && svr.slots == old(svr.slots) && svr.polls == old(svr.polls)
              && rt.registry == old(rt.registry) && rt.status == old(rt.status)
              && rt.logger == (if old(rt.logger) == null && svr.name == "log" then svr.main else old(rt.logger))
              && rt.monitor == (if old(rt.monitor) == null && svr.name == "monitor" then svr.main else old(rt.monitor))
  {
    if svr == null {
      return null;
    }
    if svr.status != Initialing {
      return svr;
    }
    svr.status := Working;
    if Failed(outcome) {
      var _ := DelService(rt, svr);
      return null;
    }
    if outcome.code == WEAK {
      svr.weak := true;
    } else {
      rt.nservices := rt.nservices + 1;
    }
    if svr.signals == [] {
      svr.status := Sleeping;
    } else {
      Enqueue(rt, svr);
    }
    if rt.logger == null && svr.name == "log" {
      rt.logger := svr.main;
    }
    if rt.monitor == null && svr.name == "monitor" {
      rt.monitor := svr.main;
    }
    res := svr;
  }

  /**
   * The as-written start-up path uncounts a service whose start failed, although
   * it was never counted; marking it weak first keeps the live count as it was.
   */
  method CallHandlerFixed(rt: Runtime, svr: Service?, outcome: Outcome) returns (res: Service?)
    requires svr != null ==> svr.main != null && rt.root.main != null && rt.nservices < SIZE_T - 1
    requires svr != null && svr.status == Initialing && Failed(outcome) ==>
               svr.signals == [] && Registered(rt, svr)
    modifies rt`registry, rt`logger, rt`monitor, rt`nservices, rt`status, rt`active
    modifies Just(svr)`status, Just(svr)`weak, Just(svr)`inqueue, Just(svr)`slots, Just(svr)`polls
    modifies Just(svr)`deleted
    modifies (if svr == null then {} else set p | p in svr.polls)`pollStatus
    ensures svr != null && old(svr.status) == Initialing && Failed(outcome) ==>
              && res == null && rt.nservices == old(rt.nservices)
              && rt.status == (if ShouldStop(old(rt.nservices), old(rt.root.main.hasHandler)) then Stopping else old(rt.status))
              && rt.registry == old(rt.registry) - Names(old(svr.slots)) - Names(old(svr.polls))
    ensures svr != null && old(svr.status) == Initialing && !Failed(outcome) ==>
              && res == svr && svr.weak == (old(svr.weak) || outcome.code == WEAK) && svr.deleted == old(svr.deleted)
              && (old(svr.signals) == [] ==>
                    svr.status == Sleeping && rt.active == old(rt.active) && svr.inqueue == old(svr.inqueue))
              && (old(svr.signals) != [] ==> svr.status == Working && rt.active == LkQueue.Enqueued(old(rt.active), svr) && svr.inqueue)
              && svr.slots == old(svr.slots) && svr.polls == old(svr.polls)
              && rt.nservices == old(rt.nservices) + (if outcome.code == WEAK then 0 else 1)
              && rt.registry == old(rt.registry) && rt.status == old(rt.status)
    ensures svr == null || old(svr.status) != Initialing ==> res == svr && unchanged(rt) && unchanged(Just(svr))
  {
    if svr != null && svr.status == Initialing && Failed(outcome) {
      svr.weak := true;
    }
    res := CallHandler(rt, svr, outcome);
  }

  /** A registry entry holding a service's own slot. */
  predicate HoldsService(reg: map<seq<char>, Slot?>, name: seq<char>)
    reads if name in reg && reg[name] != null then {reg[name].service} else {}
  {
    name in reg && IsService(reg[name])
  }

  /** A registry entry holding some other slot or poll. */
  predicate HoldsOtherSlot(reg: map<seq<char>, Slot?>, name: seq<char>)
    reads if name in reg && reg[name] != null then {reg[name].service} else {}
  {
    name in reg && reg[name] != null && !IsService(reg[name])
  }

  /** A fresh service as lkT_initservice leaves it. */
  ghost predicate NewlyInitialized(svr: Service, name: seq<char>)
    reads svr, svr.main
  {
    && svr.main != null && svr.main.service == svr && svr.main.name == name && !svr.main.isPoll
    && !svr.main.hasHandler && svr.name == name && svr.status == Initialing
    && svr.slots == [svr.main] && svr.polls == [] && svr.signals == []
    && !svr.weak && !svr.inqueue && svr.pending == 0 && !svr.deleted && !svr.hasRefactor
  }

  /**
   * lkT_newservice: the service already registered under `name`; null when the
   * name belongs to another slot; otherwise a new INITIALING service registered
   * under its name. Only the creating path asserts that the name fits.
   */
  method NewService(rt: Runtime, name: seq<char>) returns (svr: Service?)
    requires name !in rt.registry || rt.registry[name] == null ==> |name| < MAX_NAMESIZE
    modifies rt`registry
    ensures old(HoldsService(rt.registry, name)) ==>
              svr == old(rt.registry[name].service) && rt.registry == old(rt.registry)
    ensures old(HoldsOtherSlot(rt.registry, name)) ==> svr == null && rt.registry == old(rt.registry)
    ensures name !in old(rt.registry) || old(rt.registry[name]) == null ==>
              && svr != null && fresh(svr) && fresh(svr.main) && NewlyInitialized(svr, name)
              && rt.registry == old(rt.registry)[name := svr.main]
              && Registered(rt, svr)
  {
    if name in rt.registry && rt.registry[name] != null {
      var slot := rt.registry[name];
      if slot.service.main == slot {
        return slot.service;
      }
      return null;
    }
    svr := new Service(name);
    rt.registry := rt.registry[name := svr.main];
  }

  /**
   * lkT_newmodule. The name's registry entry is created if missing. A service
   * registered under it is returned; else a preloaded handler is consumed and
   * lkT_newservice runs; else the module search (`found`, its result) decides:
   * nothing found gives null and leaves an entry without a slot, a module gives
   * a new service registered under the name, over whatever slot held it.
   */
  method NewModule(rt: Runtime, name: seq<char>, found: Option<nat>) returns (svr: Service?)
    requires |name| < MAX_NAMESIZE
    modifies rt`registry, rt`preload
    ensures old(HoldsService(rt.registry, name)) ==>
              svr == old(rt.registry[name].service) && unchanged(rt)
    ensures !old(HoldsService(rt.registry, name)) && name in old(rt.preload) && old(rt.preload[name]).Some? ==>
              && rt.preload == old(rt.preload) - {name}
              && (old(HoldsOtherSlot(rt.registry, name)) ==> svr == null && rt.registry == old(rt.registry))
              && (!old(HoldsOtherSlot(rt.registry, name)) ==>
                    svr != null && fresh(svr) && NewlyInitialized(svr, name) &&
                    rt.registry == old(rt.registry)[name := svr.main] && Registered(rt, svr))
    ensures !old(HoldsService(rt.registry, name)) && !(name in old(rt.preload) && old(rt.preload[name]).Some?) ==>
              && rt.preload == old(rt.preload)
              && (found.None? ==>
                    svr == null && name in rt.registry &&
                    rt.registry == (if name in old(rt.registry) then old(rt.registry) else old(rt.registry)[name := null]))
              && (found.Some? ==>
                    svr != null && fresh(svr) && NewlyInitialized(svr, name) &&
                    rt.registry == old(rt.registry)[name := svr.main] && Registered(rt, svr))
  {
    if name !in rt.registry {
      rt.registry := rt.registry[name := null];
    }
    var slot := rt.registry[name];
    if slot != null && slot.service.main == slot {
      return slot.service;
    }
    if name in rt.preload && rt.preload[name].Some? {
      rt.preload := rt.preload - {name};
      svr := NewService(rt, name);
      return;
    }
    if found.None? {
      return null;
    }
    svr := new Service(name);
    rt.registry := rt.registry[name := svr.main];
  }

  /**
   * lk_preload: records a handler for a name that has no registry entry and no
   * handler preloaded yet; anything else is left as it is.
   */
  method Preload(rt: Runtime, name: seq<char>, h: Option<nat>)
    modifies rt`preload
    ensures name in rt.registry || (name in old(rt.preload) && old(rt.preload[name]).Some?) ==>
              rt.preload == old(rt.preload)
    ensures !(name in rt.registry || (name in old(rt.preload) && old(rt.preload[name]).Some?)) ==>
              rt.preload == old(rt.preload)[name := h]
  {
    if name !in rt.registry {
      if name !in rt.preload || rt.preload[name].None? {
        rt.preload := rt.preload[name := h];
      }
    }
  }

  /** A handler is preloaded under `name`. */
  predicate Preloaded(pre: map<seq<char>, Option<nat>>, name: seq<char>)
  {
    name in pre && pre[name].Some?
  }

  /** The services already registered are past their start-up (calls are not interleaved here). */
  ghost predicate StartedIfRegistered(rt: Runtime, name: seq<char>)
    reads rt, if name in rt.registry && rt.registry[name] != null then {rt.registry[name].service} else {}
  {
    HoldsService(rt.registry, name) ==> rt.registry[name].service.status != Initialing
  }

  /**
   * lk_requiref: the service registered under `name` is returned as it is, so
   * requiring twice runs the handler once; a name held by another slot gives
   * null; otherwise a new service is created and its handler run. A failed
   * start deletes the new service through lkT_delserviceL, which uncounts it
   * and may stop the runtime.
   */
  method RequireF(rt: Runtime, name: seq<char>, outcome: Outcome) returns (svr: Service?)
    requires name !in rt.registry || rt.registry[name] == null ==> |name| < MAX_NAMESIZE
    requires rt.root.main != null && rt.nservices < SIZE_T - 1
    requires StartedIfRegistered(rt, name)
    modifies rt`registry, rt`logger, rt`monitor, rt`nservices, rt`status, rt`active
    ensures old(HoldsService(rt.registry, name)) ==> svr == old(rt.registry[name].service) && unchanged(rt)
    ensures old(HoldsOtherSlot(rt.registry, name)) ==> svr == null && unchanged(rt)
    ensures name !in old(rt.registry) || old(rt.registry[name]) == null ==>
              && (Failed(outcome) ==>
                    && svr == null && rt.registry == old(rt.registry) - {name}
                    && rt.nservices == DecSize(old(rt.nservices))
                    && rt.status == (if ShouldStop(rt.nservices, old(rt.root.main.hasHandler)) then Stopping else old(rt.status)))
              && (!Failed(outcome) ==>
                    && svr != null && fresh(svr) && svr.name == name && svr.status == Sleeping
                    && rt.registry == old(rt.registry)[name := svr.main]
                    && rt.nservices == old(rt.nservices) + (if outcome.code == WEAK then 0 else 1))
  {
    svr := NewService(rt, name);
    // a service past its start-up is returned by lkT_callhandlerL as it is
    if svr != null && svr.status == Initialing {
      assert Names(svr.slots) == {name};
      svr := CallHandler(rt, svr, outcome);
    }
  }

  /** lk_require: lkT_newmodule, then the start-up handler as in RequireF. */
  method Require(rt: Runtime, name: seq<char>, found: Option<nat>, outcome: Outcome) returns (svr: Service?)
    requires |name| < MAX_NAMESIZE && rt.root.main != null && rt.nservices < SIZE_T - 1
    requires StartedIfRegistered(rt, name)
    modifies rt`registry, rt`preload, rt`logger, rt`monitor, rt`nservices, rt`status, rt`active
    ensures old(HoldsService(rt.registry, name)) ==> svr == old(rt.registry[name].service) && unchanged(rt)
    ensures !old(HoldsService(rt.registry, name)) ==>
              rt.preload == if old(Preloaded(rt.preload, name)) then old(rt.preload) - {name} else old(rt.preload)
    ensures !old(HoldsService(rt.registry, name)) && old(Preloaded(rt.preload, name)) && old(HoldsOtherSlot(rt.registry, name)) ==>
              svr == null && rt.registry == old(rt.registry) && rt.nservices == old(rt.nservices) && rt.status == old(rt.status)
    ensures !old(HoldsService(rt.registry, name)) && !old(Preloaded(rt.preload, name)) && found.None? ==>
              && svr == null && rt.nservices == old(rt.nservices) && rt.status == old(rt.status)
              && rt.registry == if name in old(rt.registry) then old(rt.registry) else old(rt.registry)[name := null]
    ensures !old(HoldsService(rt.registry, name)) &&
            (if old(Preloaded(rt.preload, name)) then !old(HoldsOtherSlot(rt.registry, name)) else found.Some?) ==>
              && (Failed(outcome) ==>
                    && svr == null && rt.registry == old(rt.registry) - {name}
                    && rt.nservices == DecSize(old(rt.nservices))
                    && rt.status == (if ShouldStop(rt.nservices, old(rt.root.main.hasHandler)) then Stopping else old(rt.status)))
              && (!Failed(outcome) ==>
                    && svr != null && fresh(svr) && svr.name == name && svr.status == Sleeping
                    && rt.registry == old(rt.registry)[name := svr.main]
                    && rt.nservices == old(rt.nservices) + (if outcome.code == WEAK then 0 else 1))
  {
    svr := NewModule(rt, name, found);
    if svr != null && svr.status == Initialing {
      assert Names(svr.slots) == {name};
      svr := CallHandler(rt, svr, outcome);
    }
  }

  /**
   * RequireF over the corrected start-up path (CallHandlerFixed): a failed
   * start leaves neither an entry nor a change to the live count.
   */
  method RequireFFixed(rt: Runtime, name: seq<char>, outcome: Outcome) returns (svr: Service?)
    requires name !in rt.registry || rt.registry[name] == null ==> |name| < MAX_NAMESIZE
    requires rt.root.main != null && rt.nservices < SIZE_T - 1
    requires StartedIfRegistered(rt, name)
    modifies rt`registry, rt`logger, rt`monitor, rt`nservices, rt`status, rt`active
    ensures old(HoldsService(rt.registry, name)) ==> svr == old(rt.registry[name].service) && unchanged(rt)
    ensures old(HoldsOtherSlot(rt.registry, name)) ==> svr == null && unchanged(rt)
    ensures name !in old(rt.registry) || old(rt.registry[name]) == null ==>
              && (Failed(outcome) ==>
                    svr == null && rt.registry == old(rt.registry) - {name} && rt.nservices == old(rt.nservices))
              && (!Failed(outcome) ==>
                    && svr != null && fresh(svr) && svr.name == name && svr.status == Sleeping
                    && rt.registry == old(rt.registry)[name := svr.main]
                    && rt.nservices == old(rt.nservices) + (if outcome.code == WEAK then 0 else 1))
  {
    svr := NewService(rt, name);
    // a service past its start-up is returned by lkT_callhandlerL as it is
    if svr != null && svr.status == Initialing {
      assert Names(svr.slots) == {name};
      svr := CallHandlerFixed(rt, svr, outcome);
    }
  }

  /** Require over the corrected start-up path (CallHandlerFixed). */
  method RequireFixed(rt: Runtime, name: seq<char>, found: Option<nat>, outcome: Outcome) returns (svr: Service?)
    requires |name| < MAX_NAMESIZE && rt.root.main != null && rt.nservices < SIZE_T - 1
    requires StartedIfRegistered(rt, name)
    modifies rt`registry, rt`preload, rt`logger, rt`monitor, rt`nservices, rt`status, rt`active
    ensures old(HoldsService(rt.registry, name)) ==> svr == old(rt.registry[name].service) && unchanged(rt)
    ensures !old(HoldsService(rt.registry, name)) ==>
              rt.preload == if old(Preloaded(rt.preload, name)) then old(rt.preload) - {name} else old(rt.preload)
    ensures !old(HoldsService(rt.registry, name)) && old(Preloaded(rt.preload, name)) && old(HoldsOtherSlot(rt.registry, name)) ==>
              svr == null && rt.registry == old(rt.registry) && rt.nservices == old(rt.nservices) && rt.status == old(rt.status)
    ensures !old(HoldsService(rt.registry, name)) && !old(Preloaded(rt.preload, name)) && found.None? ==>
              && svr == null && rt.nservices == old(rt.nservices) && rt.status == old(rt.status)
              && rt.registry == if name in old(rt.registry) then old(rt.registry) else old(rt.registry)[name := null]
    ensures !old(HoldsService(rt.registry, name)) &&
            (if old(Preloaded(rt.preload, name)) then !old(HoldsOtherSlot(rt.registry, name)) else found.Some?) ==>
              && (Failed(outcome) ==>
                    && svr == null && rt.registry == old(rt.registry) - {name} && rt.nservices == old(rt.nservices)
                    && rt.status == (if ShouldStop(old(rt.nservices), old(rt.root.main.hasHandler)) then Stopping else old(rt.status)))
              && (!Failed(outcome) ==>
                    && svr != null && fresh(svr) && svr.name == name && svr.status == Sleeping
                    && rt.registry == old(rt.registry)[name := svr.main]
                    && rt.nservices == old(rt.nservices) + (if outcome.code == WEAK then 0 else 1))
  {
    svr := NewModule(rt, name, found);
    if svr != null && svr.status == Initialing {
      assert Names(svr.slots) == {name};
      svr := CallHandlerFixed(rt, svr, outcome);
    }
  }

  /** The qualified name lkS_slotname builds: the service's name, a dot, the slot's name. */
  function SlotName(svr: seq<char>, name: seq<char>): (q: seq<char>)
    ensures |q| == |svr| + 1 + |name| && q[..|svr|] == svr && q[|svr|] == '.' && q[|svr| + 1..] == name
  {
    svr + "." + name
  }

  /**
   * lk_newslot: null when the calling service is STOPPING; otherwise a slot
   * named SlotName(self, name), registered under that name and prepended to
   * the service's slot list. The qualified name must fit (an assertion in
   * lkS_slotname) and must not already name a slot: the source dereferences
   * the null lkS_newslot returns in that case.
   */
  method NewSlot(rt: Runtime, self: Service, name: seq<char>, hasHandler: bool) returns (slot: Slot?)
    requires self.status != Stopping ==>
               |SlotName(self.name, name)| + 1 < MAX_SLOTNAME - 1 &&
               !(SlotName(self.name, name) in rt.registry && rt.registry[SlotName(self.name, name)] != null)
    modifies rt`registry, self`slots
    ensures self.status == Stopping ==> slot == null && unchanged(rt, self)
    ensures self.status != Stopping ==>
              && slot != null && fresh(slot) && slot.name == SlotName(self.name, name)
              && !slot.isPoll && slot.service == self && slot.hasHandler == hasHandler
              && self.slots == [slot] + old(self.slots)
              && rt.registry == old(rt.registry)[slot.name := slot]
    ensures old(Registered(rt, self)) ==> Registered(rt, self)
  {
    if self.status == Stopping {
      return null;
    }
    var q := SlotName(self.name, name);
    slot := new Slot(q, false, self, hasHandler);
    rt.registry := rt.registry[q := slot];
    self.slots := [slot] + self.slots;
    assert self.slots + self.polls == [slot] + (old(self.slots) + self.polls);
  }

  /**
   * lk_newpoll: as NewSlot, but the poll is WORKING with an empty queue and goes
   * on the poll list. When its thread cannot be started (`started` false) its
   * registry entry is deleted and the result is null, while it stays on the
   * service's poll list.
   */
  method NewPoll(rt: Runtime, self: Service, name: seq<char>, hasHandler: bool, started: bool) returns (slot: Slot?)
    requires self.status != Stopping ==>
               |SlotName(self.name, name)| + 1 < MAX_SLOTNAME - 1 &&
               !(SlotName(self.name, name) in rt.registry && rt.registry[SlotName(self.name, name)] != null)
    modifies rt`registry, self`polls
    ensures self.status == Stopping ==> slot == null && unchanged(rt, self)
    ensures self.status != Stopping ==>
              && |self.polls| == |old(self.polls)| + 1 && self.polls[1..] == old(self.polls)
              && fresh(self.polls[0]) && self.polls[0].name == SlotName(self.name, name)
              && self.polls[0].isPoll && self.polls[0].service == self && self.polls[0].hasHandler == hasHandler
              && self.polls[0].pollStatus == Working && self.polls[0].pollSignals == []
              && (started ==> slot == self.polls[0] && rt.registry == old(rt.registry)[slot.name := slot])
              && (!started ==> slot == null && rt.registry == old(rt.registry) - {SlotName(self.name, name)})
    ensures started && old(Registered(rt, self)) ==> Registered(rt, self)
  {
    if self.status == Stopping {
      return null;
    }
    var q := SlotName(self.name, name);
    slot := new Slot(q, true, self, hasHandler);
    rt.registry := rt.registry[q := slot];
    ghost var all0 := self.slots + self.polls;
    self.polls := [slot] + self.polls;
    ghost var all := self.slots + self.polls;
    assert forall k | 0 <= k < |all| :: all[k] == if k < |self.slots| then all0[k] else if k == |self.slots| then slot else all0[k - 1];
    if old(Registered(rt, self)) {
      forall i, j | 0 <= i < j < |all|
        ensures all[i] != all[j]
      {
        var i0 := if i < |self.slots| then i else i - 1;
        var j0 := if j < |self.slots| then j else j - 1;
        if i != |self.slots| && j != |self.slots| {
          assert all[i] == all0[i0] && all[j] == all0[j0] && i0 < j0;
        }
      }
    }
    if !started {
      rt.registry := rt.registry - {q};
      slot := null;
    }
  }

  /**
   * lk_close. Outside any service context it reports whether the runtime is
   * STOPPING, in which case the source tears the whole runtime down. Inside a
   * context whose service is set, that service becomes STOPPING, and joins the
   * ready queue if it was SLEEPING so that its deletion is considered.
   */
  method Close(rt: Runtime, ctx: Option<Service?>) returns (teardown: bool)
    modifies rt`active, (if ctx.Some? then Just(ctx.value) else {})`status
    modifies (if ctx.Some? then Just(ctx.value) else {})`inqueue
    ensures ctx.None? ==> teardown == (rt.status == Stopping) && rt.active == old(rt.active)
    ensures ctx.Some? && ctx.value == null ==> !teardown && rt.active == old(rt.active)
    ensures ctx.Some? && ctx.value != null ==>
              && !teardown && ctx.value.status == Stopping
              && (old(ctx.value.status) == Sleeping ==> ctx.value.inqueue && rt.active == LkQueue.Enqueued(old(rt.active), ctx.value))
              && (old(ctx.value.status) != Sleeping ==> ctx.value.inqueue == old(ctx.value.inqueue) && rt.active == old(rt.active))
  {
    if ctx.None? {
      return rt.status == Stopping;
    }
    teardown := false;
    var svr := ctx.value;
    if svr != null {
      if svr.status == Sleeping {
        Enqueue(rt, svr);
      }
      svr.status := Stopping;
    }
  }
}
