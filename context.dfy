/**
 * The per-thread execution context of loki.h: a stack of frames linked through
 * `prev`, each with a list of cleanup handlers that run when the protected
 * call is aborted.
 *
 * The unwinding is the C++ build's: lk_discard throws, and the catch of the
 * enclosing lk_try sets the frame's status to LK_ERR (the longjmp builds leave
 * it at LK_OK). Unwinding is modelled as a returned outcome.
 */
module LkContext {
  import opened Wrappers
  import opened LkCodes

  /** A cleanup entry: the handler and its user data (both opaque). */
  datatype Cleanup = Cleanup(handler: nat, ud: nat)

  /** lk_Context; `Svc` is the type of its `current` service pointer (Option<...> where it may be NULL). */
  class Context<Svc> {
    var prev: Context?<Svc>
    var current: Svc
    var cleanups: seq<Cleanup>
    var status: int

    constructor (svr: Svc)
      ensures current == svr && prev == null && cleanups == [] && status == OK
    {
      prev := null;
      current := svr;
      cleanups := [];
      status := OK;
    }
  }

  /** The thread-local slot holding the innermost frame of one thread. */
  class Thread<Svc> {
    var top: Context?<Svc>

    constructor ()
      ensures top == null
    {
      top := null;
    }
  }

  /** The runtime's list of recycled cleanup entries (freed_cleanups). */
  class CleanupPool {
    var freed: seq<Cleanup>

    constructor ()
      ensures freed == []
    {
      freed := [];
    }
  }

  /** The cleanup list after registering `regs` in order, each prepended. */
  function RegisterAll(list: seq<Cleanup>, regs: seq<Cleanup>): seq<Cleanup>
    decreases |regs|
  {
    if regs == [] then list else RegisterAll([regs[0]] + list, regs[1..])
  }

  function Reverse<T>(s: seq<T>): seq<T>
  {
    if s == [] then [] else Reverse(s[1..]) + [s[0]]
  }

  /** Registration by prepending keeps the newest first: the list is the reverse of the registrations. */
  lemma {:induction false} RegisterAllIsReverse(list: seq<Cleanup>, regs: seq<Cleanup>)
    ensures RegisterAll(list, regs) == Reverse(regs) + list
    decreases |regs|
  {
    if regs != [] {
      RegisterAllIsReverse([regs[0]] + list, regs[1..]);
      assert Reverse(regs[1..]) + ([regs[0]] + list) == (Reverse(regs[1..]) + [regs[0]]) + list;
    }
  }

  lemma {:induction false} RegisterAllStep(list: seq<Cleanup>, regs: seq<Cleanup>, c: Cleanup)
    ensures RegisterAll(list, regs + [c]) == [c] + RegisterAll(list, regs)
    decreases |regs|
  {
    if regs == [] {
      assert regs + [c] == [c];
    } else {
      assert (regs + [c])[1..] == regs[1..] + [c];
      RegisterAllStep([regs[0]] + list, regs[1..], c);
    }
  }

  /** lk_pushcontext: `ctx` becomes the thread's innermost frame, with no cleanups and status LK_OK. */
  method PushContext<Svc>(t: Thread<Svc>, ctx: Context<Svc>, svr: Svc)
    modifies t, ctx
    ensures t.top == ctx
    ensures ctx.prev == old(t.top) && ctx.current == svr
    ensures ctx.cleanups == [] && ctx.status == OK
  {
    ctx.prev := t.top;
    ctx.current := svr;
    ctx.cleanups := [];
    ctx.status := OK;
    t.top := ctx;
  }

  /** lk_popcontext: the frame's parent becomes innermost again. */
  method PopContext<Svc>(t: Thread<Svc>, ctx: Context<Svc>)
    modifies t
    ensures t.top == ctx.prev
  {
    t.top := ctx.prev;
  }

  /**
   * lk_addcleanup: LK_ERR outside any frame; otherwise the entry (a recycled one
   * when the pool has any) is prepended to the innermost frame's list.
   */
  method AddCleanup<Svc>(t: Thread<Svc>, pool: CleanupPool, handler: nat, ud: nat) returns (r: int)
    modifies pool, t.top
    ensures t.top == old(t.top)
    ensures r == (if old(t.top) == null then ERR else OK)
    ensures old(t.top) == null ==> pool.freed == old(pool.freed)
    ensures old(t.top) != null ==>
              t.top.cleanups == [Cleanup(handler, ud)] + old(t.top.cleanups) &&
              t.top.prev == old(t.top.prev) && t.top.status == old(t.top.status) &&
              t.top.current == old(t.top.current) &&
              pool.freed == (if old(pool.freed) == [] then [] else old(pool.freed)[1..])
  {
    var ctx := t.top;
    if ctx == null {
      return ERR;
    }
    if pool.freed != [] {
      pool.freed := pool.freed[1..];
    }
    ctx.cleanups := [Cleanup(handler, ud)] + ctx.cleanups;
    r := OK;
  }

  /** What lk_discard ends in: the process aborts outside any frame, otherwise the frame unwinds. */
  datatype DiscardEnd = Aborted | Unwound

  /**
   * lk_discard: runs the innermost frame's cleanups head first (the newest
   * registration first), each once, moves the entries to the pool in that
   * order, leaves the list empty and unwinds.
   */
  method Discard<Svc>(t: Thread<Svc>, pool: CleanupPool) returns (e: DiscardEnd, ran: seq<Cleanup>)
    modifies pool, t.top
    ensures t.top == old(t.top)
    ensures old(t.top) == null ==> e == Aborted && ran == [] && pool.freed == old(pool.freed)
    ensures old(t.top) != null ==>
              e == Unwound && ran == old(t.top.cleanups) && t.top.cleanups == [] &&
              t.top.prev == old(t.top.prev) && t.top.status == old(t.top.status) &&
              pool.freed == old(pool.freed) + ran
  {
    var ctx := t.top;
    ran := [];
    if ctx == null {
      return Aborted, [];
    }
    while ctx.cleanups != []
      invariant ran + ctx.cleanups == old(ctx.cleanups)
      invariant ctx.prev == old(ctx.prev) && ctx.status == old(ctx.status)
      invariant pool.freed == old(pool.freed)
      decreases |ctx.cleanups|
    {
      var c := ctx.cleanups[0];
      ran := ran + [c];
      ctx.cleanups := ctx.cleanups[1..];
    }
    pool.freed := pool.freed + ran;
    e := Unwound;
  }

  /** How the body of a protected call ends after registering its cleanups. */
  datatype BodyEnd = Return(code: int) | Discards

  /**
   * lk_pcall with a body that registers `regs` in order and then returns a
   * code or calls lk_discard. The frame, whose service is NULL (None), is
   * pushed and popped around the body; on discard every registered cleanup
   * runs once, newest first, and the call returns LK_ERR; on return the code
   * is passed through and no cleanup runs.
   */
  method PCall<Svc>(t: Thread<Option<Svc>>, pool: CleanupPool, regs: seq<Cleanup>, end: BodyEnd)
    returns (r: int, ran: seq<Cleanup>)
    modifies t, pool
    ensures t.top == old(t.top)
    ensures end.Discards? ==> r == ERR && ran == Reverse(regs)
    ensures end.Return? ==> r == end.code && ran == []
  {
    // lk_pcall's frame has no service (NULL), so lk_self is NULL inside the body
    var ctx := new Context<Option<Svc>>(None);
    PushContext(t, ctx, None);
    var i := 0;
    while i < |regs|
      invariant 0 <= i <= |regs|
      invariant t.top == ctx && ctx.prev == old(t.top) && ctx.status == OK
      invariant ctx.cleanups == RegisterAll([], regs[..i])
      modifies pool, ctx
    {
      var _ := AddCleanup(t, pool, regs[i].handler, regs[i].ud);
      RegisterAllStep([], regs[..i], regs[i]);
      assert regs[..i + 1] == regs[..i] + [regs[i]];
      i := i + 1;
    }
    assert regs[..i] == regs;
    RegisterAllIsReverse([], regs);
    r := OK;
    ran := [];
    match end {
      case Return(code) =>
        r := code;
      case Discards =>
        var _, done := Discard(t, pool);
        ran := done;
        // the catch of lk_try in the C++ build
        if ctx.status == OK {
          ctx.status := ERR;
        }
    }
    PopContext(t, ctx);
    if ctx.status == ERR {
      r := ERR;
    }
  }
}
