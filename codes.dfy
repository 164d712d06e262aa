/** Return codes and lifecycle states shared by the whole runtime (loki.h:54-57, 445-448). */
module LkCodes {
  const OK: int := 0
  const WEAK: int := 1
  const ERR: int := -1
  const TIMEOUT: int := -2

  /** LK_INITIALING, LK_WORKING, LK_SLEEPING, LK_STOPPING */
  datatype Status = Initialing | Working | Sleeping | Stopping

  /** How an opaque user handler ended: returned a code, or raised (lk_discard, out of memory). */
  datatype Outcome = Returned(code: int) | Raised
}
