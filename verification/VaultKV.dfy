/** Failures of single-key Vault operations. */
module VaultKV {
  /** How a KV operation ends: as reported, failed without effect, or failed in the
      caller's eyes although it took effect. Reads have no effect, so for them the two
      failures are alike. */
  datatype Fault = Ok | Failed | FailedButApplied

  /** The KV operations to come end as the script says, and well after it is used up. */
  type Script = seq<Fault>

  predicate NoFaults(script: Script) {
    forall i :: 0 <= i < |script| ==> script[i] == Ok
  }
}
