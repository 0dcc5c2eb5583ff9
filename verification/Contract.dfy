/** The parts of the engine/adapter contract that enforcement and capture read (internal/contract/contract.go). */
module Contract {
  import opened TokenBucket

  datatype Mode = Async | Inline

  const OBSERVE: int := 0
  const TAG: int := 1
  const CONTAIN: int := 2
  const JAIL_TIER: int := 3

  datatype Verdict = Verdict(cookie: u64, scope: string, tier: int, mode: Mode, score: real, calibrated: bool)
}
