/** What the outbox and the intervention executor share: leases that expire and delays that double. */
module Leases {
  import opened Wrappers

  datatype Lease = Lease(id: nat, expiresAt: int)

  /** Free, or held until a time that has come. */
  predicate LeaseFree(lease: Option<Lease>, now: int) {
    lease.None? || lease.value.expiresAt <= now
  }

  function Pow2(k: nat): nat {
    if k == 0 then 1 else 2 * Pow2(k - 1)
  }

  /** The delay after a failed attempt. */
  function Delay(base: nat, attempt: nat): nat {
    base * Pow2(if attempt == 0 then 0 else attempt - 1)
  }
}
