/** Producer backpressure: the admission budget of one execution lane. */
module Admission {
  import opened Basics

  /** What happens to work that arrives at a full lane; the field is optional. */
  datatype Mode = Unspecified | Reject | Delay | Unsupported

  const DEFAULT_RETRY_AFTER := 30_000_000_000
  const DEFAULT_DELAY_BY := 30_000_000_000

  datatype Policy = Policy(maxPending: int, reservedCritical: int, onOverflow: Mode, delayBy: int, retryAfter: int)

  predicate Validate(p: Policy) {
    && p.maxPending > 0 && 0 <= p.reservedCritical < p.maxPending
    && (p.onOverflow == Reject || p.onOverflow == Delay)
    && p.delayBy >= 0 && p.retryAfter >= 0
  }

  function Normalize(p: Policy): Policy {
    Policy(p.maxPending, p.reservedCritical,
           if p.onOverflow == Unspecified then Reject else p.onOverflow,
           if p.delayBy <= 0 then DEFAULT_DELAY_BY else p.delayBy,
           if p.retryAfter <= 0 then DEFAULT_RETRY_AFTER else p.retryAfter)
  }

  /** How many waiting jobs of this kind the lane accepts. */
  function Capacity(p: Policy, critical: bool): int {
    if critical then p.maxPending else p.maxPending - p.reservedCritical
  }

  datatype Decision =
    | Accept
    | Defer(deferBy: int)
    | OverCapacity(pending: int, capacity: int, critical: bool, retryAfter: int)

  function Decide(p: Policy, pending: int, critical: bool): Decision {
    var policy := Normalize(p);
    var capacity := Capacity(policy, critical);
    if pending < capacity then Accept
    else if policy.onOverflow == Delay then Defer(policy.delayBy)
    else OverCapacity(pending, capacity, critical, policy.retryAfter)
  }

  /** PostgreSQL stops counting at the capacity. The decision is the one the full
      count would give; only the backlog quoted in a rejection is cut off. */
  lemma CappedCountDecidesAlike(p: Policy, pending: nat, critical: bool)
    requires Capacity(p, critical) >= 0
    ensures var capped := Decide(p, Min(pending, Capacity(p, critical)), critical);
            var full := Decide(p, pending, critical);
            if full.OverCapacity? then capped == full.(pending := Capacity(p, critical)) else capped == full
  {
  }

  /** The reserve is what only critical work may use: exactly while the backlog is within
      the last `reservedCritical` places is a critical job accepted and another one not,
      and a lane that delays never rejects. */
  lemma ReserveIsForCritical(p: Policy, pending: nat)
    requires Validate(p)
    ensures Decide(p, pending, true).Accept? && !Decide(p, pending, false).Accept? <==>
            p.maxPending - p.reservedCritical <= pending < p.maxPending
    ensures Decide(p, pending, false).Accept? ==> Decide(p, pending, true).Accept?
    ensures Decide(p, pending, true).OverCapacity? <==> pending >= p.maxPending && p.onOverflow == Reject
    ensures Decide(p, pending, true).Defer? ==> Decide(p, pending, true).deferBy > 0
  {
  }
}
