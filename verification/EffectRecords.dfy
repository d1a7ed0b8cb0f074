/** One entry of the effect ledger and its transitions. */
module EffectRecords {
  import opened Basics

  datatype EffectState = Pending | Confirmed | Uncertain | Rejected | NotHappened

  /** An entry is addressed by its job, its name and its idempotency key. */
  datatype EffectKey = EffectKey(jobId: string, name: string, key: string)

  datatype Effect = Effect(
    id: string, key: EffectKey, state: EffectState, irreversible: bool,
    externalRef: string, createdAt: Instant, leaseEpoch: int)

  datatype ConfirmationKind = OnReturn | ExternalSignal | Verify | StatusMatches | UnsupportedKind

  datatype ConfirmationPolicy = ConfirmationPolicy(kind: ConfirmationKind, completedStatus: string)

  datatype EffectError = InvalidRecord | InvalidTransition | UnsupportedPolicy

  /** `NewRecord`: an entry for a RhinoQ job, opened pending. The epoch is filled in
      by the store from the fencing token. */
  function NewRecord(id: string, key: EffectKey, irreversible: bool, now: Instant): Result<Effect, EffectError> {
    if key.jobId == "" || id == "" || key.name == "" || key.key == "" || now == ZERO_TIME then Err(InvalidRecord)
    else Ok(Effect(id, key, Pending, irreversible, "", now, 0))
  }

  function Confirm(r: Effect, policy: ConfirmationPolicy, status: string): Result<Effect, EffectError> {
    if r.state != Pending then Err(InvalidTransition)
    else match policy.kind
      case OnReturn => Ok(r.(state := Confirmed, externalRef := status))
      case ExternalSignal => Ok(r)
      case Verify => Ok(r)
      case StatusMatches =>
        if policy.completedStatus != "" && status == policy.completedStatus
        then Ok(r.(state := Confirmed, externalRef := status)) else Ok(r)
      case UnsupportedKind => Err(UnsupportedPolicy)
  }

  function MarkUncertain(r: Effect): Result<Effect, EffectError> {
    if r.state != Pending then Err(InvalidTransition) else Ok(r.(state := Uncertain))
  }
}
