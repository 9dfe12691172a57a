/** Protection states and the two rules over them: when recorded evidence is sufficient, and
    which state a number of confirmations yields. */
module ProtectionPolicy {
  import opened Prelude

  datatype ProtectionState = PENDING | PLACED | DEGRADED | VERIFIED | FAILED
  {
    predicate CountsAsProtected() { PLACED? || VERIFIED? }
  }

  type Epoch = string

  /** A chunk_protection row, without its timestamps and error text. */
  datatype Record = Record(desiredRf: int, state: ProtectionState, copies: int, epoch: Option<Epoch>)

  /** Whether a chunk may be trusted to be protected remotely. A required factor of zero asks
      for nothing, so even a missing row suffices. */
  predicate Sufficient(record: Option<Record>, requiredRf: nat, currentEpoch: Option<Epoch>)
  {
    if requiredRf == 0 then true
    else if record.None? then false
    else
      var row := record.value;
      && row.state.CountsAsProtected()
      && row.desiredRf >= requiredRf
      && (currentEpoch.Some? ==> row.epoch == currentEpoch)
      && row.copies >= requiredRf
  }

  function StateFromThresholds(confirmed: int, successThreshold: int, degradedThreshold: int,
                               success: ProtectionState, degraded: ProtectionState, failed: ProtectionState)
    : ProtectionState
  {
    if confirmed >= successThreshold then success
    else if confirmed >= degradedThreshold then degraded
    else failed
  }
}
